# SilkRoad in Dafny

This project models the core of SilkRoad, a simulation of robots and stores on
a one-dimensional road of cells `0..length`. Robots move along the road and
collect tenges (the currency) from the stores they land on. Stores can be
resupplied, robots returned to where they started, and the road rebooted or
finished. A contest solver replays a schedule of placement events and reports
the best profit after each prefix of the schedule.

The model follows the Java classes:

* `JavaLang` (java_lang.dfy): the Java semantics the core relies on.
  * `Math.abs` and `Math.max`.
  * Integer division, which truncates toward zero.
  * Decimal rendering of an `int` inside string concatenation.
  * `String.toLowerCase` on the ASCII letters.
* `Robots` (robots.dfy): the capability hooks of `RobotAbstracto` and their
  overrides in `Robot`, `TenderRobot` and `NeverbackRobot`.
  * How much a robot collects.
  * What a move nets.
  * Whether a move is allowed.
  * The rejection message.
  * The factory `crearRobot`.
* `Neverback` (neverback.dfy): the direction lock of `NeverbackRobot`, as
  functions on its state and as the class `NeverbackRobot` with its setters.
* `Stores` (stores.dfy): the hooks of `StoreAbstracto` and the overrides in
  `Store`, `AutonomousStore`, `FighterStore` and `CasinoStore`, plus the
  factory `crearTienda`.
* `Mediator` (mediator.dfy): `Road.transferirTenges`, the robot-store
  transfer.
* `Greedy` (greedy.dfy): the greedy assignment of robots to stores.
  * `moveRobots` and `calculateMaxProfitGreedy` skip losses.
  * `calculateOptimalProfit` of the contest counts them.
* `Schedule` (schedule.dfy): the largest position named by a schedule.
* `World` (world.dfy): the whole state of a `SilkRoad` as one value
  `Snapshot`, with one pure function per public operation. Every promise of
  an operation is stated and proved there.
* `Engine` (engine.dfy): the class `SilkRoad`. It keeps the road in arrays
  that its methods update in place. Each method is proved to take the state
  `State()` to exactly the `World` function of the old state.
* `Contest` (contest.dfy): the class `SilkRoadContest` and `solve`.
  * `solve` is proved to return the running maxima of the prefix profits.
  * Its final overwrite loop is proved to change nothing.

`java.util.Random` is replaced by parameters. The casino's two draws are one
`Draw` argument. The free cell an autonomous store picks is a `pick` index.
`moveRobots` receives one draw per store, as `draw: nat -> Draw`.

The source behaves in these ways, and the model keeps each one:

* A transfer goes to the lowest-numbered cell where a robot and a store
  coincide. The fighter store judges by the mover's tenges, not the tenges of
  the robot on that cell.
* The tenges a placement transfers are discarded: the placed robot keeps 0
  tenges.
* A robot that a fighter store rejects still moves; only the transfer is 0.
* The engine never calls `lockDirection`, so every `NeverbackRobot` on the
  road stays unlocked, and every move it asks for is allowed.
* A move of 0 meters always fails, because the target cell is the occupied
  source cell.
* `resupplyStores` refills stores from `profitPerLocation`.
* The contest's greedy pass adds negative gains; the engine's skips them.
* A casino can pay out more than the store holds, which leaves a negative
  balance.
* `checkReboots` adds a day's tenges to `maxProfit` even when the store
  placement fails.
* The loop at the end of `solve` that overwrites entries after the best
  prefix writes the values already there.
* The sort in `getTiendasActivas` sorts an already sorted list.

## Model

| member | source | states |
|---|---|---|
| JavaLang.Abs | silkroad/SilkRoad.java:570 | the distance `Math.abs` gives: non-negative and equal to the value or its negation |
| JavaLang.Max | silkroad/SilkRoad.java:1458 | `Math.max`: an upper bound of both arguments that is one of them |
| JavaLang.Div | silkroad/CasinoStore.java:138-143 | Java's `/` truncates toward zero: the magnitude of the quotient is the quotient of the magnitudes, and it equals Dafny's division for a non-negative dividend and a positive divisor |
| JavaLang.DivNegate | silkroad/CasinoStore.java:138-143 | truncating division commutes with negating the dividend, unlike Euclidean division |
| JavaLang.Digits | silkroad/FighterStore.java:139-143 | the decimal text of a natural number is non-empty and made of digit characters only |
| JavaLang.DigitsRoundTrip | silkroad/FighterStore.java:139-143 | reading back the decimal digits of a natural number gives that number |
| JavaLang.Decimal | silkroad/FighterStore.java:139-143 | the text concatenation gives an int begins with '-' exactly when the int is negative |
| JavaLang.ParseSigned | silkroad/FighterStore.java:139-143 | parsing a '-' followed by digits gives the negated value |
| JavaLang.DecimalRoundTrip | silkroad/FighterStore.java:139-143 | every int's decimal text parses back to that int, so the messages carry the balances exactly |
| JavaLang.ToLower | silkroad/SilkRoad.java:329 | lower-casing keeps the length and maps each ASCII capital to its small letter (code + 32), every other character to itself |
| JavaLang.LowerIgnoresCase | silkroad/SilkRoad.java:303 | lower-casing ignores earlier upper-casing or lower-casing, so a type name is recognised in any letter case |
| Robots.DefaultCollect | silkroad/RobotAbstracto.java:190-193 | by default a robot takes everything the store offers |
| Robots.DefaultNetGain | silkroad/RobotAbstracto.java:246-248 | by default the net gain plus the distance is the collection, so a trip longer than the collection loses |
| Robots.DefaultMovementAllowed | silkroad/RobotAbstracto.java:280-282 | by default every move is allowed |
| Robots.DefaultRejectionMessage | silkroad/RobotAbstracto.java:268-270 | by default there is no rejection text |
| Robots.TenderCollect | silkroad/TenderRobot.java:93-95 | a tender robot takes half, rounded down: between 0 and the offer, never more than it leaves behind |
| Robots.Create | silkroad/SilkRoad.java:328-342 | the factory gives a robot exactly for "normal", "neverback" and "tender" in any ASCII letter case; a neverback robot starts unlocked |
| Robots.Collect | silkroad/Robot.java:92-94 | every kind but tender takes the whole offer, and every collection of a non-negative offer lies between 0 and the offer |
| Robots.NetGain | silkroad/TenderRobot.java:107-110 | a move's net gain is within the distance of the collection either way, and is exactly collection minus distance for a non-negative distance |
| Robots.CheckMove | silkroad/RobotAbstracto.java:280-282 | only a locked neverback robot can refuse a move; asking never changes the lock |
| Robots.RejectionMessage | silkroad/NeverbackRobot.java:213-219 | only a neverback robot has rejection text, and its text is never empty |
| Robots.ResetDirection | silkroad/RobotAbstracto.java:289-291 | resetting unlocks a neverback robot and leaves the other kinds unchanged |
| Robots.CreateIgnoresCase | silkroad/SilkRoad.java:328-342 | a type name creates the same robot whatever its letter case |
| Robots.TenderScenario | silkroad/TenderRobot.java:93-110 | a tender robot 10 cells from a 100-tenges store collects 50, leaves 50 and nets 40 |
| Neverback.Check | silkroad/NeverbackRobot.java:75-98 | an unlocked robot allows every move; a lock of 1 allows exactly positive moves and a lock of -1 exactly negative ones; a refusal records the attempted meters and keeps the lock |
| Neverback.Lock | silkroad/NeverbackRobot.java:107-115 | the first non-zero move fixes the lock to its sign; a zero move or an existing lock changes nothing |
| Neverback.SetLock | silkroad/NeverbackRobot.java:60-64 | only 1 and -1 are accepted as locks; other values leave the state unchanged |
| Neverback.Reset | silkroad/NeverbackRobot.java:121-123 | reset clears the lock and keeps the recorded attempt |
| Neverback.Collect | silkroad/NeverbackRobot.java:181-183 | a neverback robot takes the whole offer |
| Neverback.NetGain | silkroad/NeverbackRobot.java:199-204 | the net gain charges the absolute distance: gain plus distance is the collection |
| Neverback.RejectionMessage | silkroad/NeverbackRobot.java:213-219 | the message names the locked direction and carries the attempted meters |
| Neverback.LockStaysInRange | silkroad/NeverbackRobot.java:60-123 | no sequence of checks, locks, sets and resets takes the lock out of {-1, 0, 1} |
| Neverback.LockedRejectsOtherDirection | silkroad/NeverbackRobot.java:75-115 | once a move has locked the robot, a move in the opposite direction or of 0 meters is refused, and locking again changes nothing |
| Neverback.ZeroRejectedWhenLocked | silkroad/NeverbackRobot.java:75-98 | a locked robot refuses a move of 0 meters and records 0 as the attempt |
| Neverback.NeverbackRobot.constructor | silkroad/NeverbackRobot.java:31-43 | a new robot is unlocked and has no recorded attempt |
| Neverback.NeverbackRobot.GetDirectionLocked | silkroad/NeverbackRobot.java:50-52 | the getter reads the lock of the state |
| Neverback.NeverbackRobot.SetDirectionLocked | silkroad/NeverbackRobot.java:60-64 | the object's new state is `SetLock` of its old state |
| Neverback.NeverbackRobot.IsMovementAllowed | silkroad/NeverbackRobot.java:75-98 | the answer and the new state are those of `Check` on the old state |
| Neverback.NeverbackRobot.LockDirection | silkroad/NeverbackRobot.java:107-115 | the new state is `Lock` of the old state |
| Neverback.NeverbackRobot.ResetDirection | silkroad/NeverbackRobot.java:121-123 | the new state is `Reset` of the old state |
| Stores.DefaultAccepts | silkroad/StoreAbstracto.java:194-198 | by default a store accepts every robot |
| Stores.DefaultProcess | silkroad/StoreAbstracto.java:218-222 | by default a store pays out exactly what was collected |
| Stores.ValidateTransfer | silkroad/StoreAbstracto.java:145-149 | validation passes the requested amount through unchanged |
| Stores.TransferTenges | silkroad/StoreAbstracto.java:159-163 | the transfer hook returns the requested amount |
| Stores.CurrentTenges | silkroad/StoreAbstracto.java:168-172 | a store object reports 0 tenges; the balance lives in the road |
| Stores.Create | silkroad/SilkRoad.java:302-318 | the factory gives a store exactly for "normal", "autonomous", "fighter" and "casino" in any ASCII letter case |
| Stores.Accepts | silkroad/FighterStore.java:101-105 | a fighter store accepts only a robot strictly richer than the store; every other kind accepts all |
| Stores.CasinoPercentage | silkroad/CasinoStore.java:129-147 | bad luck gives a percentage in [50, 75], good luck one in [100, 150] |
| Stores.CasinoProcess | silkroad/CasinoStore.java:129-147 | for a non-negative collection the payout lies between half of it and one and a half times it, at most all of it on bad luck and at least all of it on good luck; 0 pays 0 |
| Stores.CasinoBounds | silkroad/CasinoStore.java:138-143 | a percentage between 50 and 150 scales a non-negative collection into [collection/2, 3*collection/2]; 75 or less never pays more than the collection, 100 or more never less |
| Stores.Process | silkroad/CasinoStore.java:129-147 | only a casino changes the payout; the other kinds pay out the collection |
| Stores.FighterText | silkroad/FighterStore.java:139-143 | the fighter text is the fixed lead, the store balance, the fixed middle, the robot balance and the fixed tail, in that order |
| Stores.RejectionMessage | silkroad/StoreAbstracto.java:243-247 | only a fighter store has rejection text, and it contains both balances |
| Stores.NeedsRandomPosition | silkroad/AutonomousStore.java:92-94 | exactly the autonomous stores choose their own cell |
| Stores.CreateIgnoresCase | silkroad/SilkRoad.java:302-318 | a type name creates the same store whatever its letter case |
| Stores.FighterRejectsEqual | silkroad/FighterStore.java:101-105 | a fighter store rejects a robot whose tenges only equal its balance, and then has a rejection text |
| Mediator.Transfer | silkroad/Road.java:417-426 | the road's transfer is the robot's collection: at most the offer, and all of it for every kind but tender |
| Mediator.TenderLeavesHalf | silkroad/Road.java:417-426 | through the road a tender robot takes half a non-negative balance, rounded down, and leaves at least as much; a normal robot takes it all |
| Greedy.Gain | silkroad/SilkRoad.java:693-694 | a gain is at most the balance, and equals it exactly when the robot already stands on the store |
| Greedy.BestRobot | silkroad/SilkRoadContest.java:152-163 | the chosen robot has the largest gain, and every earlier robot has a strictly smaller one |
| Greedy.Assign | silkroad/SilkRoad.java:687-714 | one store of the pass: the losses-skipping pass never counts below 0, the counted gain is at most the balance, and either nothing moves or only the chosen robot moves onto the store |
| Greedy.SkippingLossesIsNonNegative | silkroad/SilkRoad.java:733-770 | the engine's estimate is never negative |
| Greedy.Total | silkroad/SilkRoadContest.java:151-170 | a pass over no store counts 0; its bounds are stated in `SkippingLossesIsNonNegative` and `TotalAtMostBalances` and its loss counting in `LossExample` |
| Greedy.TotalAtMostBalances | silkroad/SilkRoadContest.java:138-171 | with non-negative balances no pass earns more than the stores hold |
| Greedy.KeepingLossesNeverHelpsOneStore | silkroad/SilkRoadContest.java:165-169 | for one store, counting a loss never gives more than skipping it |
| Greedy.RobotOnSiteTakesBalance | silkroad/SilkRoad.java:688-699 | a robot already on the store is chosen and takes the whole balance |
| Greedy.LossExample | silkroad/SilkRoadContest.java:151-170 | a robot 10 cells from a 5-tenges store costs the contest 5 and the engine nothing |
| Greedy.SelectRobot | silkroad/SilkRoadContest.java:152-163 | the selection loop returns the first robot of largest gain, and that gain |
| Schedule.MaxPosition | silkroad/SilkRoadContest.java:64-70 | the largest position any event names, or 0: an upper bound of every position that is attained |
| Schedule.ComputeMaxPosition | silkroad/SilkRoadContest.java:64-70 | the scanning loop computes that largest position |
| World.Initial | silkroad/SilkRoad.java:41-68 | a new road of the given length has no robots or stores, profit 0, ok set, and no schedule |
| World.ScheduleLength | silkroad/SilkRoad.java:81-91 | a schedule's road is at least one cell long and reaches every position the schedule names |
| World.FromSchedule | silkroad/SilkRoad.java:81-123 | a road built from a schedule is empty, long enough for the schedule, and in day mode at day 0 |
| World.FirstCoincideFrom | silkroad/SilkRoad.java:1290-1297 | the first cell from a given start where a robot stands on a store with a positive balance, or -1 when there is none |
| World.FirstCoincide | silkroad/SilkRoad.java:1290-1297 | the lowest cell where a robot stands on a store with a positive balance; -1 exactly when no cell has both |
| World.TransferIfCoincide | silkroad/SilkRoad.java:1290-1321 | only the store balances change: with no coincidence nothing happens; otherwise the first such store loses what is collected, which is 0 on a rejection and otherwise the store's processing of what the robot on that cell takes through the road |
| World.TransferSplitsBalance | silkroad/SilkRoad.java:1290-1344 | for any store but a casino the collection is the robot's share, between 0 and the balance, and the store keeps the rest |
| World.ActiveRobots | silkroad/SilkRoad.java:777-785 | the occupied cells, in increasing order, exactly |
| World.ActiveStores | silkroad/SilkRoad.java:792-801 | the cells whose store has a positive balance, in increasing order, exactly |
| World.EmptiedStores | silkroad/SilkRoad.java:350-375 | the cells whose store has a balance of 0, in increasing order, exactly |
| World.FreeStoreCells | silkroad/SilkRoad.java:274-292 | the cells without a store, in increasing order, exactly |
| World.FindRandomPosition | silkroad/SilkRoad.java:274-292 | -1 exactly when every cell has a store; otherwise a cell without one |
| World.UpdateMaxProfit | silkroad/SilkRoad.java:1439-1461 | only the bound changes, to exactly the larger of 1 and the store balances minus the travel back to origin plus the profit |
| World.TotalsDependOnCells | silkroad/SilkRoad.java:1439-1461 | the bound depends on the robots, origins and stores only |
| World.AddRobotToLocation | silkroad/SilkRoad.java:461-492 | placing a robot keeps the shape of the road |
| World.RobotPlaced | silkroad/SilkRoad.java:476-491 | the robot is on the cell with 0 tenges and itself as origin, ok is set, stores, originals, profit, ledger and bound are kept, and only the cell itself or an already coinciding cell can change its balance |
| World.PlaceRobot | silkroad/SilkRoad.java:435-452 | an unknown robot type only clears ok |
| World.AddStoreToLocation | silkroad/SilkRoad.java:206-265 | ok is set exactly when the cell (the random free one for an autonomous store) is on the road and has no store; a failure only clears ok; a success puts the store there, records its tenges as original and raises the bound by them |
| World.StorePlaced | silkroad/SilkRoad.java:242-264 | the store is on the cell with its tenges as original, the bound grows by them, ok is set, robots and profit are untouched, only the cell or an already coinciding cell can change its balance, and without a robot on the cell the store keeps all its tenges |
| World.PlaceStore | silkroad/SilkRoad.java:178-195 | an unknown store type only clears ok |
| World.Resupplied | silkroad/SilkRoad.java:384-413 | resupply never lowers a balance, and leaves a cell without a store as it is |
| World.ResupplyStores | silkroad/SilkRoad.java:384-413 | every balance becomes its resupplied value, the bound grows by the total refill, ok is set, and nothing else changes |
| World.ExecuteMove | silkroad/SilkRoad.java:535-610 | a move keeps the shape of the road |
| World.Moved | silkroad/SilkRoad.java:564-609 | a completed move leaves the source empty, puts the robot on the target with the source's origin, and credits the robot, the profit and the target's ledger cell with the net gain of what the transfer at the target collects over the distance walked |
| World.Arrive | silkroad/SilkRoad.java:593-609 | arrival leaves the balances the transfer check leaves, credits the robot, the profit and the target's ledger cell with the robot's net gain of the collected amount over the distance, and records the origin |
| World.Shifted | silkroad/SilkRoad.java:572-579 | the robot moves from the source to the target and the source empties |
| World.Credited | silkroad/SilkRoad.java:596-603 | the robot on the target gets the new tenges and origin, the profit and the target's ledger cell grow by the gain, nothing else changes and the ledger gap is kept |
| World.MoveRobot | silkroad/SilkRoad.java:500-524 | a move from a cell without a robot changes nothing, and no move changes the gap between the ledger total and the profit |
| World.GreedyMoves | silkroad/SilkRoad.java:680-714 | the greedy pass of moves keeps the ledger gap, and an empty pass changes nothing |
| World.GreedyMovesUsesItsDraws | silkroad/SilkRoad.java:680-714 | the k-th store of the pass uses draw k, and draws outside the pass play no part |
| World.GreedyStep | silkroad/SilkRoad.java:687-714 | when GreedyChoice sends nobody nothing changes; otherwise the chosen robot moves from its planned cell to the store's cell and its planned position becomes that cell; the ledger gap is kept |
| World.GreedyChoice | silkroad/SilkRoad.java:688-702 | a robot is sent exactly when the best gain is not negative, and it is the first robot of best gain |
| World.GreedyEstimate | silkroad/SilkRoad.java:733-770 | the estimate lies between 0 and the total balance of the active stores |
| World.MoveRobots | silkroad/SilkRoad.java:658-720 | moving all robots keeps the ledger gap; with no robot or no store with tenges only the bound changes, to 0 |
| World.ReturnStep | silkroad/SilkRoad.java:812-844 | a robot away from a known origin leaves its cell and lands on its origin with its direction reset, its tenges and its origin recorded there; any other cell is left as it was; no balance, profit or ledger changes |
| World.ReturnFrom | silkroad/SilkRoad.java:812-844 | returning the robots from a cell on changes no balance, no profit and no ledger |
| World.ReturnRobots | silkroad/SilkRoad.java:808-865 | returning robots changes no balance, no profit and no ledger, and sets ok |
| World.ReturnStepMoves | silkroad/SilkRoad.java:817-838 | one return step puts the robot on its origin, reset, with its tenges, and leaves no later robot claiming that cell |
| World.ReturnFromKeepsCell | silkroad/SilkRoad.java:812-844 | a robot already home, whose cell no later robot returns onto, keeps its robot, tenges and origin through the loop |
| World.ReturnFromMovesRobot | silkroad/SilkRoad.java:812-844 | a robot whose origin and cell no other robot returns onto ends the loop on its origin, reset, with the tenges it had |
| World.ReturnRobotsKeepsTenges | silkroad/SilkRoad.java:803-838 | returning robots keeps each robot's tenges and puts it, reset, on its origin, for a robot whose origin and cell no other robot returns onto |
| World.Finish | silkroad/SilkRoad.java:1151-1216 | finishing clears every robot, store, balance, origin and ledger cell, zeroes profit and bound, and ends a day-mode schedule |
| World.CheckReboots | silkroad/SilkRoad.java:1054-1112 | the day's events keep the shape of the road |
| World.DayEvent | silkroad/SilkRoad.java:1076-1111 | `[1, pos]` places a normal robot; `[2, pos, tenges]` places a normal store and raises the bound by the tenges once more; any other row changes nothing |
| World.Stocked | silkroad/SilkRoad.java:242-248 | the store stands on its cell with its tenges as balance and original, the bound grows by them, and nothing else changes |
| World.Paid | silkroad/SilkRoad.java:596-609 | the robot's tenges grow by its net gain, which is added to the profit and to the cell's ledger entry, the origin is kept on the new cell, the ledger gap is kept, ok is set and the bound stays at least 1 |
| World.RestoreStores | silkroad/SilkRoad.java:1006-1014 | every store gets back its original balance; cells without a store and everything else stay |
| World.ClearRobots | silkroad/SilkRoad.java:1020-1028 | every robot stays where it is, unlocked and with 0 tenges |
| World.Reboot | silkroad/SilkRoad.java:1002-1045 | a reboot zeroes the profit, sets ok and leaves a bound of at least 1 |
| World.Restart | silkroad/SilkRoad.java:1002-1045 | the restart part of reboot zeroes the profit, sets ok and leaves a bound of at least 1 |
| World.RemoveStore | silkroad/SilkRoad.java:1369-1397 | removing a store keeps the shape of the road |
| World.RemoveRobot | silkroad/SilkRoad.java:1404-1429 | removing a robot keeps the shape of the road |
| World.SiteSumNonNegative | silkroad/SilkRoad.java:792-801 | the balances of the active stores add up to a non-negative total |
| World.PlacementKeepsRobotEmpty | silkroad/SilkRoad.java:461-492 | a robot placed on a free cell starts with 0 tenges at its own origin, and no profit or ledger changes |
| World.AddRobotOutcome | silkroad/SilkRoad.java:461-492 | placement succeeds only on a free cell inside the road; on any other cell the road, ok included, is left exactly as it was |
| World.AutonomousLandsOnFreeCell | silkroad/SilkRoad.java:206-229 | an autonomous store fails when every cell has a store, and otherwise lands on the free cell chosen, raising the bound by its tenges |
| World.StorePlacementSucceeds | silkroad/SilkRoad.java:206-265 | a non-autonomous store placed on any cell of the road without a store succeeds, robot or coincidence or not: it is there with its tenges as original, the bound grows by them, robots and profit are untouched, and without a robot on the cell it keeps its tenges |
| World.StorePlacedUnderRobot | silkroad/SilkRoad.java:242-264 | a store placed under a robot, with no coincidence before it, gives up at once what the robot collects (nothing for a fighter store, as the robot arrives with 0 tenges), no other balance changes and nobody is credited |
| World.StorePlacementFails | silkroad/SilkRoad.java:221-240 | a store that keeps its requested cell fails outside the road or on a cell with a store, and only ok is cleared |
| World.StorePlacementKeepsRobots | silkroad/SilkRoad.java:206-265 | placing a store, and the transfer it triggers, changes no robot, robot tenges, origin or profit |
| World.RejectedRobotStillArrives | silkroad/SilkRoad.java:593-609 | a robot the coinciding store rejects still arrives: no balance changes, and its tenges and the profit both drop by the distance |
| World.ZeroMoveFails | silkroad/SilkRoad.java:535-560 | a move of 0 meters fails and changes no tenges and no profit |
| World.MoveSucceeds | silkroad/SilkRoad.java:535-610 | an allowed move to a free cell in range relocates the reset robot, sets ok, leaves the balances the transfer at the target leaves, and credits robot, profit and ledger with the net gain of the collection over |meters| |
| World.MoveFails | silkroad/SilkRoad.java:535-560 | a refused move, or one out of range or onto a robot, changes only the robot's lock state and clears ok |
| World.ExecuteMovePreservesLedger | silkroad/SilkRoad.java:535-610 | every move adds the same amount to the ledger total and to the profit |
| World.UnlockedMoveIsAllowed | silkroad/NeverbackRobot.java:75-98 | on a road with no lock, every move is allowed |
| World.MoveKeepsUnlocked | silkroad/SilkRoad.java:500-524 | no move introduces a lock |
| World.PlaceRobotKeepsUnlocked | silkroad/SilkRoad.java:435-492 | no placement introduces a lock |
| World.ReturnFromSettles | silkroad/SilkRoad.java:812-844 | after the return loop every robot stands at its origin |
| World.ReturnFromSettledIsIdentity | silkroad/SilkRoad.java:812-844 | on a settled road the return loop changes nothing |
| World.ReturnRobotsSettlesAndIsIdempotent | silkroad/SilkRoad.java:808-865 | returning robots settles every robot, and returning again changes nothing |
| World.FinishIsIdempotent | silkroad/SilkRoad.java:1151-1216 | finishing twice is finishing once, and leaves no active robot or store |
| World.ResupplyGainZero | silkroad/SilkRoad.java:384-413 | when no balance changes, the refill total is 0 |
| World.ResupplyIsIdempotent | silkroad/SilkRoad.java:384-413 | resupply never lowers a balance, and a second resupply changes nothing |
| World.NoEventOutsideDayMode | silkroad/SilkRoad.java:1054-1112 | without a day schedule no event fires, and reboot is only the restart |
| World.RestartRestores | silkroad/SilkRoad.java:1002-1045 | after a restart every robot is at its origin, unlocked, with 0 tenges, and every store holds its original balance |
| World.RemoveStoreClears | silkroad/SilkRoad.java:1369-1397 | removing a store clears that cell, lowers the bound by its balance, and changes no other store, robot or profit |
| World.RemoveRobotClears | silkroad/SilkRoad.java:1404-1429 | removing a robot clears that cell and its tenges, keeps every origin, and changes no other robot, no store and no profit |
| Engine.RoadLength | silkroad/SilkRoad.java:81-91 | the loop computes the length `ScheduleLength` specifies |
| Engine.SilkRoad.constructor | silkroad/SilkRoad.java:41-68 | the new object's state is the empty road `Initial(length)` |
| Engine.SilkRoad.FromSchedule | silkroad/SilkRoad.java:81-123 | the new object's state is `FromSchedule(schedule)` |
| Engine.SilkRoad.GetLength | silkroad/SilkRoad.java:125-127 | the length is one less than the number of cells |
| Engine.SilkRoad.Profit | silkroad/SilkRoad.java:1120-1122 | the profit of the state |
| Engine.SilkRoad.Ok | silkroad/SilkRoad.java:1223-1225 | the outcome of the last operation |
| Engine.SilkRoad.TransferTengesPolimorficos | silkroad/SilkRoad.java:1332-1344 | the store's balance becomes what was on offer minus the collection, and the collection is returned |
| Engine.SilkRoad.TransferTengesIfCoincide | silkroad/SilkRoad.java:1290-1321 | the new state and the collection are those of `TransferIfCoincide` |
| Engine.SilkRoad.UpdateMaxProfit | silkroad/SilkRoad.java:1439-1461 | the new state is `UpdateMaxProfit` of the old one |
| Engine.SilkRoad.GetActiveRobots | silkroad/SilkRoad.java:777-785 | the scan returns `ActiveRobots` of the state |
| Engine.SilkRoad.GetActiveStores | silkroad/SilkRoad.java:792-801 | the scan returns `ActiveStores` of the state |
| Engine.SilkRoad.EmptiedStores | silkroad/SilkRoad.java:350-375 | the scan returns `EmptiedStores` of the state |
| Engine.SilkRoad.EncontrarPosicionRandom | silkroad/SilkRoad.java:274-292 | the chosen cell is `FindRandomPosition` of the state |
| Engine.SilkRoad.AddRobotToLocation | silkroad/SilkRoad.java:461-492 | the new state is `AddRobotToLocation` of the old one |
| Engine.SilkRoad.PutRobot | silkroad/SilkRoad.java:476-491 | the new state is `RobotPlaced` of the old one |
| Engine.SilkRoad.PlaceRobotOfType | silkroad/SilkRoad.java:435-452 | the new state is `PlaceRobot` of the old one |
| Engine.SilkRoad.PlaceRobot | silkroad/SilkRoad.java:421-423 | placing without a type places a normal robot |
| Engine.SilkRoad.AddStoreToLocation | silkroad/SilkRoad.java:206-265 | the new state is `AddStoreToLocation` of the old one |
| Engine.SilkRoad.PutStore | silkroad/SilkRoad.java:242-264 | the new state is `StorePlaced` of the old one |
| Engine.SilkRoad.PlaceStoreOfType | silkroad/SilkRoad.java:178-195 | the new state is `PlaceStore` of the old one |
| Engine.SilkRoad.PlaceStore | silkroad/SilkRoad.java:162-164 | placing without a type places a normal store |
| Engine.SilkRoad.ResupplyStores | silkroad/SilkRoad.java:384-413 | the new state is `ResupplyStores` of the old one |
| Engine.SilkRoad.ValidateRobotMovement | silkroad/SilkRoad.java:626-646 | the answer is the robot's own; an allowed robot is stored unlocked, a refused one with its updated state and ok cleared |
| Engine.SilkRoad.ExecuteRobotMovement | silkroad/SilkRoad.java:535-610 | the new state is `ExecuteMove` of the old one |
| Engine.SilkRoad.Move | silkroad/SilkRoad.java:564-609 | the new state is `Moved` of the old one |
| Engine.SilkRoad.Arrive | silkroad/SilkRoad.java:593-609 | the new state is `Arrive` of the old one |
| Engine.SilkRoad.Shift | silkroad/SilkRoad.java:572-579 | the new state is `Shifted` of the old one |
| Engine.SilkRoad.Credit | silkroad/SilkRoad.java:596-603 | the new state is `Credited` of the old one |
| Engine.SilkRoad.MoveRobot | silkroad/SilkRoad.java:500-524 | the new state is `MoveRobot` of the old one |
| Engine.SilkRoad.CalculateMaxProfitGreedy | silkroad/SilkRoad.java:733-770 | the estimate is 0 without robots or stores, and otherwise the losses-skipping greedy total |
| Engine.SilkRoad.MoveRobots | silkroad/SilkRoad.java:658-720 | the new state is `MoveRobots` of the old one |
| Engine.SilkRoad.MovePass | silkroad/SilkRoad.java:680-714 | the new state is `GreedyMoves` of the old one |
| Engine.SilkRoad.MoveToStore | silkroad/SilkRoad.java:687-714 | the new state and robot positions are those of `GreedyStep` |
| Engine.SilkRoad.ReturnRobots | silkroad/SilkRoad.java:808-865 | the new state is `ReturnRobots` of the old one |
| Engine.SilkRoad.ReturnEach | silkroad/SilkRoad.java:812-844 | the new state is `ReturnFrom` of the old one from cell 0 |
| Engine.SilkRoad.ReturnRobotAt | silkroad/SilkRoad.java:813-843 | the new state is `ReturnStep` of the old one |
| Engine.SilkRoad.Finish | silkroad/SilkRoad.java:1151-1216 | the new state is `Finish` of the old one |
| Engine.SilkRoad.CheckReboots | silkroad/SilkRoad.java:1054-1112 | the new state is `CheckReboots` of the old one |
| Engine.SilkRoad.ApplyEvent | silkroad/SilkRoad.java:1076-1111 | the new state is `DayEvent` of the old one |
| Engine.SilkRoad.Stock | silkroad/SilkRoad.java:242-248 | the new state is `Stocked` of the old one |
| Engine.SilkRoad.Settle | silkroad/SilkRoad.java:596-609 | the new state is `Paid` of the old one |
| Engine.SilkRoad.Reboot | silkroad/SilkRoad.java:1002-1045 | the new state is `Reboot` of the old one |
| Engine.SilkRoad.Restart | silkroad/SilkRoad.java:1002-1045 | the new state is `Restart` of the old one |
| Engine.SilkRoad.RestoreStores | silkroad/SilkRoad.java:1006-1014 | the new state is `RestoreStores` of the old one |
| Engine.SilkRoad.ClearRobots | silkroad/SilkRoad.java:1020-1028 | the new state is `ClearRobots` of the old one |
| Engine.SilkRoad.RemoveStore | silkroad/SilkRoad.java:1369-1397 | the new state is `RemoveStore` of the old one |
| Engine.SilkRoad.RemoveRobot | silkroad/SilkRoad.java:1404-1429 | the new state is `RemoveRobot` of the old one |
| Contest.Empty | silkroad/SilkRoadContest.java:38-44 | a new contest board has one cell more than its length, no robot, no store and no balance |
| Contest.Apply | silkroad/SilkRoadContest.java:84-98 | loading an event keeps the board's size, and a row that is too short or of unknown type changes nothing |
| Contest.LoadUpTo | silkroad/SilkRoadContest.java:84-98 | loading a prefix of events keeps the board's size |
| Contest.ActiveRobots | silkroad/SilkRoadContest.java:173-180 | the cells whose robot stands on its own cell, in increasing order, exactly |
| Contest.ActiveStores | silkroad/SilkRoadContest.java:182-190 | the cells holding a store with a positive balance, in increasing order, exactly |
| Contest.PrefixBoard | silkroad/SilkRoadContest.java:80-98 | the board after loading the first events is well sized |
| Contest.Profits | silkroad/SilkRoadContest.java:80-103 | one profit per prefix of the schedule |
| Contest.ProfitsAt | silkroad/SilkRoadContest.java:80-103 | entry l is the optimal profit after loading the first l+1 events |
| Contest.Entries | silkroad/SilkRoadContest.java:77-80 | the number of results is the event count, or 0 when that is negative |
| Contest.RunningMax | silkroad/SilkRoadContest.java:101-113 | the best profit so far: not negative, at least every profit seen, and one of them unless it is 0 |
| Contest.Maxima | silkroad/SilkRoadContest.java:101-113 | entry k is the best profit over the first k+1 prefixes |
| Contest.Solution | silkroad/SilkRoadContest.java:60-130 | an absent or too short schedule has no results; otherwise there is one result per event |
| Contest.RunningMaxGrows | silkroad/SilkRoadContest.java:101-113 | the best profit never drops as more prefixes are seen |
| Contest.MaximaExtends | silkroad/SilkRoadContest.java:101-113 | one more prefix adds the larger of the old best and its own profit |
| Contest.MaximaAreRunningMaximum | silkroad/SilkRoadContest.java:101-113 | every result is non-negative, bounds all earlier profits, is one of them or 0, and results never decrease |
| Contest.MaximaSettle | silkroad/SilkRoadContest.java:101-121 | once the profits stop changing, the results stop changing |
| Contest.PrefixProfitSettles | silkroad/SilkRoadContest.java:84-85 | a prefix longer than the table loads only the table's rows, so it earns what the whole table earns |
| Contest.ProfitsSettle | silkroad/SilkRoadContest.java:80-98 | prefixes longer than the schedule load no more events and give the same profit |
| Contest.SolutionSettles | silkroad/SilkRoadContest.java:80-121 | results after the schedule's last row all equal the result of that row |
| Contest.LaterStoreReplaces | silkroad/SilkRoadContest.java:94-96 | a later store event on the same cell replaces the earlier one |
| Contest.ExampleDays | test/SilkRoadContestTest.java:15-19 | the example schedule announces two events |
| Contest.ExampleBoards | test/SilkRoadContestTest.java:15-19 | the example's two prefix boards: one robot at 0, then also a store of 100 at 5 |
| Contest.ExampleFirstProfit | test/SilkRoadContestTest.java:15-19 | a robot without stores earns 0 |
| Contest.ExampleSecondProfit | test/SilkRoadContestTest.java:15-19 | the robot at 0 earns 95 from the store of 100 at 5 |
| Contest.SolutionExample | test/SilkRoadContestTest.java:15-19 | the example schedule's results are 0 and 95 |
| Contest.SilkRoadContest.constructor | silkroad/SilkRoadContest.java:38-44 | the new contest holds the empty board of that length and profit 0 |
| Contest.SilkRoadContest.Load | silkroad/SilkRoadContest.java:84-98 | the new board is `Apply` of the old one |
| Contest.SilkRoadContest.GetRobotsActivos | silkroad/SilkRoadContest.java:173-180 | the scan returns `ActiveRobots` of the board |
| Contest.SilkRoadContest.GetTiendasActivas | silkroad/SilkRoadContest.java:182-190 | the scan returns `ActiveStores` of the board |
| Contest.OptimalProfit | silkroad/SilkRoadContest.java:138-171 | with no active store or no robot the profit is 0; it never exceeds what the active stores hold |
| Contest.PrefixProfitBounded | silkroad/SilkRoadContest.java:81-102 | the profit of a prefix is 0 when it loads no store or no robot, and never exceeds the balances of the stores it loads |
| Contest.ToArray | silkroad/SilkRoadContest.java:124-127 | a fresh array holding exactly the listed profits, in order |
| Contest.SilkRoadContest.CalculateOptimalProfit | silkroad/SilkRoadContest.java:138-171 | the profit grows by the greedy total that counts losses |
| Contest.SilkRoadContest.GreedyPass | silkroad/SilkRoadContest.java:145-170 | the loop computes the greedy total that counts losses |
| Contest.Solve | silkroad/SilkRoadContest.java:60-130 | the returned array is `Solution(days)`: for each prefix, the best optimal profit over it and all shorter prefixes |
| Contest.Record | silkroad/SilkRoadContest.java:101-113 | the bookkeeping after one prefix keeps the results equal to the running maxima |
| Contest.OverwriteAfterBest | silkroad/SilkRoadContest.java:119-121 | the final overwrite after the best prefix leaves the results unchanged |
| Contest.PrefixContest | silkroad/SilkRoadContest.java:81-102 | a fresh contest loaded with a prefix computes that prefix's optimal profit |
| Contest.LoadPrefix | silkroad/SilkRoadContest.java:81-98 | a fresh contest, after loading a prefix, holds that prefix's board with profit 0 |

## Left out

- Drawing: every call to `Canvas`, the shapes, `makeVisible`, `makeInvisible`, `setFastMovement`, the robot movement animation and the colours. These have no effect on the state that is modelled.
- `ProgressBar` and `updateProgressBar`: drawing only.
- Dialogs: `mostrarRechazo`, and the dialog and recolouring in `emptiedStores`. The modelled part of `emptiedStores` is the list of cells it reports.
- `consultStatistics`, `profitPerMove`, `stores()` and `robots()`: they only build reports or matrices from the state. The state they read is fully modelled.
- `simulate` in `SilkRoadContest`: it animates a solution on a visible road.
- `getTipo` of the robots: it returns a display name that no modelled operation reads.
- `java.util.Random`: its draws become parameters (`Draw`, `pick`, `draw`). The model proves the ranges that the Java draws respect, not their distribution.
- Java `int` overflow and wrap-around: integers are unbounded, so sums of very large balances are not modelled.
- The road after `finish`: the Java road object is dropped and is null afterwards. The model keeps an emptied road of the same length.
- A null `days` array or null rows: `days` shorter than two rows stands for the null case, and a missing row is an empty row.
- Contest.Solve: it requires a header row and non-negative event positions (`Loadable`). For other inputs Java would throw an index exception.
- Contest.Solve: its loop body is split into the helper methods `LoadPrefix`, `PrefixContest`, `Record`, `OverwriteAfterBest` and `ToArray`, so that each proof stays small.
- Engine.SilkRoad.MoveRobots: the draws are indexed by store, not by transfer; a pass uses at most one casino draw per store.
- World.AddRobotToLocation: its contract states only that the road keeps its shape. The outcome is stated in `PlacementKeepsRobotEmpty` and `AddRobotOutcome`.
- World.ExecuteMove: its contract states only the shape. The outcome is stated in `MoveSucceeds`, `MoveFails`, `ZeroMoveFails` and `ExecuteMovePreservesLedger`.
- World.ReturnRobots: the landing of a robot on its origin with its tenges is proved per robot, in `ReturnRobotsKeepsTenges`, for a robot whose cell and origin no other robot returns onto; when two robots share an origin the later one overwrites the earlier, as the Java loop does, and no contract describes that case.
- Contest.PrefixProfit: carries no contract of its own, so that the proofs that unfold it stay small; its bounds are the lemma `PrefixProfitBounded`.
- World.CheckReboots: its contract states only the shape. The no-event case is in `NoEventOutsideDayMode`.
- World.RemoveStore: its contract states only the shape. The effect is stated in `RemoveStoreClears`.
- World.RemoveRobot: its contract states only the shape. The effect is stated in `RemoveRobotClears`.
- World.Initial: it requires `length >= -1`. For a smaller length Java's `new SilkRoad(length)` throws `NegativeArraySizeException` when it allocates the arrays, and the model has no such error path.
- Engine.SilkRoad.constructor: it requires `length >= -1`, for the same reason as `World.Initial`.
- JavaLang.ToLower: it lowers ASCII capitals only. Java's `toLowerCase()` also maps other Unicode letters (the Kelvin sign lowers to `k`) and follows the default locale (a Turkish locale lowers `I` to a dotless `ı`). Under those inputs or locales the factories in `Robots.Create` and `Stores.Create` can answer differently from Java.
- World.GreedyMoves: where each robot ends up is stated one store at a time, through `GreedyStep` and `GreedyChoice`, not in closed form for the whole pass.
- The Javadoc of `FighterStore` says a rejected robot loses tenges. The code subtracts nothing, and the model follows the code.
