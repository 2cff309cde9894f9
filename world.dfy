/**
 * The SilkRoad engine as a function of its state. A Snapshot holds what the
 * Java object keeps in its arrays and fields: per cell the robot reference,
 * the robot's tenges, the robot's origin, the store reference, the store's
 * tenges and original tenges, plus the profit per location (one entry more
 * than there are cells), the accumulated profit, the progress-bar maximum,
 * the last-operation flag and the day schedule. Every public and private
 * operation of SilkRoad is a function from a snapshot (and the random draws
 * it needs) to a snapshot; the class in the Engine module is proved against
 * them.
 */
module World {
  import opened JavaLang
  import Robots
  import Stores
  import Mediator
  import Greedy
  import Schedule

  type Robot = Robots.RobotKind
  type Store = Stores.StoreKind
  type Draw = Stores.Draw

  datatype Snapshot = Snapshot(
    length: int,
    robots: seq<Option<Robot>>,
    robotTenges: seq<int>,
    robotOrigins: seq<int>,
    stores: seq<Option<Store>>,
    storeTenges: seq<int>,
    originalStoreTenges: seq<int>,
    profitPerLocation: seq<int>,
    profit: int,
    maxProfit: int,
    lastOk: bool,
    schedule: Option<seq<seq<int>>>,
    dayIndex: int,
    dayMode: bool)

  /** Array shapes as the constructors allocate them, and origins that name a cell or -1. */
  predicate WellFormed(s: Snapshot) {
    && s.length >= -1
    && |s.robots| == s.length + 1
    && |s.robotTenges| == |s.robots|
    && |s.robotOrigins| == |s.robots|
    && |s.stores| == |s.robots|
    && |s.storeTenges| == |s.robots|
    && |s.originalStoreTenges| == |s.robots|
    && |s.profitPerLocation| == |s.robots| + 1
    && (forall i :: 0 <= i < |s.robotOrigins| ==> -1 <= s.robotOrigins[i] < |s.robots|)
    && (s.schedule.Some? ==> s.dayIndex >= 0)
  }

  /** Two snapshots with the same number of cells. */
  predicate SameShape(s: Snapshot, r: Snapshot) {
    WellFormed(s) && WellFormed(r) && r.length == s.length
  }

  /** n copies of v. */
  function Filled<T>(n: nat, v: T): (z: seq<T>)
    ensures |z| == n && forall i :: 0 <= i < n ==> z[i] == v
  {
    seq(n, i => v)
  }

  // ---- construction ----

  /** SilkRoad(int length): empty cells, origins -1, no schedule. */
  function Initial(length: int): (s: Snapshot)
    requires length >= -1
    ensures WellFormed(s) && s.length == length
    ensures forall i :: 0 <= i <= length ==> s.robots[i].None? && s.stores[i].None? && s.robotOrigins[i] == -1
    ensures s.profit == 0 && s.maxProfit == 0 && s.lastOk
    ensures s.schedule.None? && !s.dayMode
  {
    EmptyRoad(length, None, -1, false)
  }

  /** A road of `length` with no robot and no store, nothing earned yet. */
  function EmptyRoad(length: int, schedule: Option<seq<seq<int>>>, dayIndex: int, dayMode: bool): Snapshot
    requires length >= -1
  {
    Snapshot(length, Filled(length + 1, None), Filled(length + 1, 0), Filled(length + 1, -1),
             Filled(length + 1, None), Filled(length + 1, 0), Filled(length + 1, 0), Filled(length + 2, 0),
             0, 0, true, schedule, dayIndex, dayMode)
  }

  /** The length SilkRoad(int[][]) gives itself: the largest event position, at least 1. */
  function ScheduleLength(schedule: Option<seq<seq<int>>>): (length: int)
    ensures length >= 1
    ensures schedule.Some? ==> length >= Schedule.MaxPosition(schedule.value)
    ensures schedule.Some? ==> forall i :: 1 <= i < |schedule.value| && |schedule.value[i]| > 1 ==> schedule.value[i][1] <= length
  {
    Max(if schedule.Some? then Schedule.MaxPosition(schedule.value) else 0, 1)
  }

  /** SilkRoad(int[][] schedule): day mode on, day index 0, room for every event position. */
  function FromSchedule(schedule: Option<seq<seq<int>>>): (s: Snapshot)
    ensures WellFormed(s) && s.length == ScheduleLength(schedule)
    ensures forall i :: 0 <= i <= s.length ==> s.robots[i].None? && s.stores[i].None?
    ensures s.schedule == schedule && s.dayIndex == 0 && s.dayMode
    ensures s.profit == 0 && s.maxProfit == 0 && s.lastOk
  {
    EmptyRoad(ScheduleLength(schedule), schedule, 0, true)
  }

  // ---- transfer when a robot and a store share a cell ----

  /** A robot and a store with a positive balance on cell i. */
  predicate Coincide(s: Snapshot, i: int)
    requires WellFormed(s)
  {
    0 <= i < |s.robots| && s.robots[i].Some? && s.stores[i].Some? && s.storeTenges[i] > 0
  }

  /** The first coinciding cell at or after `from`, or -1 when there is none. */
  function FirstCoincideFrom(s: Snapshot, from: nat): (c: int)
    requires WellFormed(s) && from <= |s.robots|
    ensures c == -1 || (from <= c < |s.robots| && Coincide(s, c))
    ensures c == -1 ==> forall j :: from <= j < |s.robots| ==> !Coincide(s, j)
    ensures c != -1 ==> forall j :: from <= j < c ==> !Coincide(s, j)
    decreases |s.robots| - from
  {
    if from == |s.robots| then -1
    else if Coincide(s, from) then from
    else FirstCoincideFrom(s, from + 1)
  }

  function FirstCoincide(s: Snapshot): (c: int)
    requires WellFormed(s)
    ensures c == -1 || Coincide(s, c)
    ensures c == -1 <==> forall j :: 0 <= j < |s.robots| ==> !Coincide(s, j)
    ensures c != -1 ==> forall j :: 0 <= j < c ==> !Coincide(s, j)
  {
    FirstCoincideFrom(s, 0)
  }

  datatype Transferred = Transferred(after: Snapshot, collected: int)

  /**
   * transferTengesIfCoincide: the first cell (lowest index) where a robot
   * stands on a store with tenges is settled. The store may refuse the robot
   * (judged on the tenges of the robot that is moving, `robotCurrentTenges`);
   * otherwise the robot on that cell takes its share through the road, the
   * store rescales it, and the store keeps the rest. The amount is returned to
   * the caller, who credits the robot it is moving.
   */
  function TransferIfCoincide(s: Snapshot, robotCurrentTenges: int, d: Draw): (r: Transferred)
    requires WellFormed(s)
    ensures SameShape(s, r.after)
    ensures r.after == s.(storeTenges := r.after.storeTenges)
    ensures FirstCoincide(s) == -1 ==> r == Transferred(s, 0)
    ensures FirstCoincide(s) != -1 ==>
              var c := FirstCoincide(s);
              && r.after.storeTenges == s.storeTenges[c := s.storeTenges[c] - r.collected]
              && (Stores.Accepts(s.stores[c].value, robotCurrentTenges, s.storeTenges[c]) || r.collected == 0)
    ensures FirstCoincide(s) != -1 ==>
              var c := FirstCoincide(s);
              var store := s.stores[c].value;
              Stores.Accepts(store, robotCurrentTenges, s.storeTenges[c]) ==>
                r.collected == Stores.Process(store, Mediator.Transfer(s.robots[c].value, store, s.storeTenges[c]), d)
  {
    var c := FirstCoincide(s);
    if c == -1 then Transferred(s, 0)
    else
      var store := s.stores[c].value;
      var available := s.storeTenges[c];
      if !Stores.Accepts(store, robotCurrentTenges, available) then Transferred(s, 0)
      else
        var collected := Mediator.Transfer(s.robots[c].value, store, available);
        var transferred := Stores.Process(store, collected, d);
        Transferred(s.(storeTenges := s.storeTenges[c := available - transferred]), transferred)
  }

  /**
   * With a non-casino store, the robot on the coinciding cell takes what its
   * kind collects and the store keeps exactly the rest; a store that refuses
   * keeps everything.
   */
  lemma TransferSplitsBalance(s: Snapshot, robotCurrentTenges: int, d: Draw)
    requires WellFormed(s) && FirstCoincide(s) != -1
    requires !s.stores[FirstCoincide(s)].value.Casino?
    ensures var c := FirstCoincide(s);
            var r := TransferIfCoincide(s, robotCurrentTenges, d);
            var store := s.stores[c].value;
            && (Stores.Accepts(store, robotCurrentTenges, s.storeTenges[c]) ==>
                  r.collected == Robots.Collect(s.robots[c].value, s.storeTenges[c]))
            && (!Stores.Accepts(store, robotCurrentTenges, s.storeTenges[c]) ==> r == Transferred(s, 0))
            && 0 <= r.collected <= s.storeTenges[c]
            && r.after.storeTenges[c] + r.collected == s.storeTenges[c]
  {
  }

  // ---- the cell lists the engine builds ----

  /** The indices below k whose flag is set, scanning upwards. */
  function Indices(flags: seq<bool>, k: nat): seq<int>
    requires k <= |flags|
    decreases k
  {
    if k == 0 then []
    else
      var r := Indices(flags, k - 1);
      if flags[k - 1] then r + [k - 1] else r
  }

  /** The scan lists exactly the set flags below k, each once, in increasing order. */
  lemma {:induction false} IndicesListsFlags(flags: seq<bool>, k: nat)
    requires k <= |flags|
    ensures forall a, b :: 0 <= a < b < |Indices(flags, k)| ==> Indices(flags, k)[a] < Indices(flags, k)[b]
    ensures forall a :: 0 <= a < |Indices(flags, k)| ==> 0 <= Indices(flags, k)[a] < k && flags[Indices(flags, k)[a]]
    ensures forall i :: 0 <= i < k && flags[i] ==> i in Indices(flags, k)
    decreases k
  {
    if k > 0 {
      var r := Indices(flags, k - 1);
      IndicesListsFlags(flags, k - 1);
      if flags[k - 1] {
        assert Indices(flags, k) == r + [k - 1];
      } else {
        assert Indices(flags, k) == r;
      }
    }
  }

  function RobotFlags(s: Snapshot): (f: seq<bool>)
    ensures |f| == |s.robots| && forall i :: 0 <= i < |f| ==> (f[i] <==> s.robots[i].Some?)
  {
    seq(|s.robots|, i requires 0 <= i < |s.robots| => s.robots[i].Some?)
  }

  function ActiveStoreFlags(s: Snapshot): (f: seq<bool>)
    requires WellFormed(s)
    ensures |f| == |s.robots| && forall i :: 0 <= i < |f| ==> (f[i] <==> s.stores[i].Some? && s.storeTenges[i] > 0)
  {
    seq(|s.robots|, i requires 0 <= i < |s.robots| => s.stores[i].Some? && s.storeTenges[i] > 0)
  }

  function FreeFlags(s: Snapshot): (f: seq<bool>)
    requires WellFormed(s)
    ensures |f| == |s.robots| && forall i :: 0 <= i < |f| ==> (f[i] <==> s.stores[i].None?)
  {
    seq(|s.robots|, i requires 0 <= i < |s.robots| => s.stores[i].None?)
  }

  /** getActiveRobots: the occupied cells, in increasing order. */
  function ActiveRobots(s: Snapshot): (r: seq<int>)
    requires WellFormed(s)
    ensures forall a, b :: 0 <= a < b < |r| ==> r[a] < r[b]
    ensures forall a :: 0 <= a < |r| ==> 0 <= r[a] < |s.robots|
    ensures forall i :: i in r <==> 0 <= i < |s.robots| && s.robots[i].Some?
  {
    IndicesListsFlags(RobotFlags(s), |s.robots|);
    Indices(RobotFlags(s), |s.robots|)
  }

  /** getActiveStores: the cells with a store holding tenges, in increasing order. */
  function ActiveStores(s: Snapshot): (r: seq<int>)
    requires WellFormed(s)
    ensures forall a, b :: 0 <= a < b < |r| ==> r[a] < r[b]
    ensures forall a :: 0 <= a < |r| ==> 0 <= r[a] < |s.robots|
    ensures forall i :: i in r <==> 0 <= i < |s.robots| && s.stores[i].Some? && s.storeTenges[i] > 0
  {
    IndicesListsFlags(ActiveStoreFlags(s), |s.robots|);
    Indices(ActiveStoreFlags(s), |s.robots|)
  }

  function EmptyStoreFlags(s: Snapshot): (f: seq<bool>)
    requires WellFormed(s)
    ensures |f| == |s.robots| && forall i :: 0 <= i < |f| ==> (f[i] <==> s.stores[i].Some? && s.storeTenges[i] == 0)
  {
    seq(|s.robots|, i requires 0 <= i < |s.robots| => s.stores[i].Some? && s.storeTenges[i] == 0)
  }

  /** emptiedStores, as a query: the cells whose store holds no tenges, in increasing order. */
  function EmptiedStores(s: Snapshot): (r: seq<int>)
    requires WellFormed(s)
    ensures forall a, b :: 0 <= a < b < |r| ==> r[a] < r[b]
    ensures forall i :: i in r <==> 0 <= i < |s.robots| && s.stores[i].Some? && s.storeTenges[i] == 0
  {
    IndicesListsFlags(EmptyStoreFlags(s), |s.robots|);
    Indices(EmptyStoreFlags(s), |s.robots|)
  }

  /** The cells without a store, where an autonomous store may land. */
  function FreeStoreCells(s: Snapshot): (r: seq<int>)
    requires WellFormed(s)
    ensures forall a, b :: 0 <= a < b < |r| ==> r[a] < r[b]
    ensures forall a :: 0 <= a < |r| ==> 0 <= r[a] < |s.robots|
    ensures forall i :: i in r <==> 0 <= i < |s.robots| && s.stores[i].None?
  {
    IndicesListsFlags(FreeFlags(s), |s.robots|);
    Indices(FreeFlags(s), |s.robots|)
  }

  /**
   * encontrarPosicionRandom: one of the free cells, chosen by `pick` (the
   * value java.util.Random would supply), or -1 when every cell has a store.
   */
  function FindRandomPosition(s: Snapshot, pick: nat): (c: int)
    requires WellFormed(s)
    ensures c == -1 <==> forall i :: 0 <= i < |s.robots| ==> s.stores[i].Some?
    ensures c != -1 ==> 0 <= c < |s.robots| && s.stores[c].None?
  {
    var free := FreeStoreCells(s);
    if |free| == 0 then -1
    else
      assert free[0] in free;
      free[pick % |free|]
  }

  // ---- the progress-bar maximum ----

  /** Sum of the balances of the stores on cells below k. */
  function StoreTotalUpTo(s: Snapshot, k: nat): int
    requires WellFormed(s) && k <= |s.robots|
    decreases k
  {
    if k == 0 then 0
    else StoreTotalUpTo(s, k - 1) + (if s.stores[k - 1].Some? then s.storeTenges[k - 1] else 0)
  }

  /** Where a robot on cell i started: its recorded origin, or the cell itself when unknown. */
  function OriginOf(s: Snapshot, i: int): (o: int)
    requires WellFormed(s) && 0 <= i < |s.robots|
    ensures 0 <= o < |s.robots|
  {
    if s.robotOrigins[i] == -1 then i else s.robotOrigins[i]
  }

  /** Sum of the distances of the robots on cells below k from their origins. */
  function TravelCostUpTo(s: Snapshot, k: nat): (c: int)
    requires WellFormed(s) && k <= |s.robots|
    ensures c >= 0
    decreases k
  {
    if k == 0 then 0
    else TravelCostUpTo(s, k - 1) + (if s.robots[k - 1].Some? then Abs(k - 1 - OriginOf(s, k - 1)) else 0)
  }

  /** updateMaxProfit: store tenges minus travel so far plus profit, never below 1. */
  function UpdateMaxProfit(s: Snapshot): (r: Snapshot)
    requires WellFormed(s)
    ensures SameShape(s, r) && r == s.(maxProfit := r.maxProfit)
    ensures r.maxProfit >= 1
    ensures r.maxProfit >= StoreTotalUpTo(s, |s.robots|) - TravelCostUpTo(s, |s.robots|) + s.profit
    ensures r.maxProfit == 1 || r.maxProfit == StoreTotalUpTo(s, |s.robots|) - TravelCostUpTo(s, |s.robots|) + s.profit
  {
    s.(maxProfit := Max(1, StoreTotalUpTo(s, |s.robots|) - TravelCostUpTo(s, |s.robots|) + s.profit))
  }

  /** The maximum depends only on the cells and the profit. */
  lemma {:induction false} TotalsDependOnCells(a: Snapshot, b: Snapshot, k: nat)
    requires WellFormed(a) && WellFormed(b) && k <= |a.robots|
    requires a.robots == b.robots && a.robotOrigins == b.robotOrigins
    requires a.stores == b.stores && a.storeTenges == b.storeTenges
    ensures StoreTotalUpTo(a, k) == StoreTotalUpTo(b, k)
    ensures TravelCostUpTo(a, k) == TravelCostUpTo(b, k)
    decreases k
  {
    if k > 0 {
      TotalsDependOnCells(a, b, k - 1);
    }
  }

  // ---- placement ----

  /**
   * addRobotToLocation: a bad or occupied cell leaves everything as it was
   * (the flag included). Otherwise the robot starts there with 0 tenges and
   * itself as origin, and the transfer check runs; its result is discarded.
   */
  function AddRobotToLocation(s: Snapshot, robot: Robot, location: int, d: Draw): (r: Snapshot)
    requires WellFormed(s)
    ensures SameShape(s, r)
  {
    if location < 0 || location >= |s.robots| || s.robots[location].Some? then s
    else RobotPlaced(s, robot, location, d)
  }

  /** The robot lands on a free cell with 0 tenges, its own origin, and the transfer check runs. */
  function RobotPlaced(s: Snapshot, robot: Robot, location: int, d: Draw): (r: Snapshot)
    requires WellFormed(s) && 0 <= location < |s.robots|
    ensures SameShape(s, r) && r.lastOk
    ensures r.robots == s.robots[location := Some(robot)]
    ensures r.robotTenges == s.robotTenges[location := 0] && r.robotOrigins == s.robotOrigins[location := location]
    ensures r.stores == s.stores && r.originalStoreTenges == s.originalStoreTenges
    ensures r.profit == s.profit && r.profitPerLocation == s.profitPerLocation && r.maxProfit == s.maxProfit
    ensures forall j :: 0 <= j < |s.robots| && j != location && !Coincide(s, j) ==> r.storeTenges[j] == s.storeTenges[j]
  {
    var placed := s.(robots := s.robots[location := Some(robot)],
                     robotTenges := s.robotTenges[location := 0],
                     robotOrigins := s.robotOrigins[location := location]);
    TransferIfCoincide(placed, 0, d).after.(lastOk := true)
  }

  /** placeRobot(type, location): an unknown type fails; otherwise addRobotToLocation. */
  function PlaceRobot(s: Snapshot, kind: string, location: int, d: Draw): (r: Snapshot)
    requires WellFormed(s)
    ensures SameShape(s, r)
    ensures Robots.Create(kind).None? ==> r == s.(lastOk := false)
  {
    match Robots.Create(kind)
    case None => s.(lastOk := false)
    case Some(robot) => AddRobotToLocation(s, robot, location, d)
  }

  /**
   * addStoreToLocation: an autonomous store replaces the location by a random
   * free cell. No cell, a bad cell or a cell with a store fails. Otherwise the
   * store gets its tenges (also recorded as original), the maximum grows by
   * them, and the transfer check runs with its result discarded.
   */
  function AddStoreToLocation(s: Snapshot, store: Store, location: int, tenges: int, pick: nat, d: Draw): (r: Snapshot)
    requires WellFormed(s)
    ensures SameShape(s, r)
    ensures var cell := if Stores.NeedsRandomPosition(store) then FindRandomPosition(s, pick) else location;
            && (r.lastOk <==> 0 <= cell < |s.robots| && s.stores[cell].None?)
            && (!r.lastOk ==> r == s.(lastOk := false))
            && (r.lastOk ==> r.stores == s.stores[cell := Some(store)] && r.maxProfit == s.maxProfit + tenges
                             && r.originalStoreTenges == s.originalStoreTenges[cell := tenges])
  {
    var cell := if Stores.NeedsRandomPosition(store) then FindRandomPosition(s, pick) else location;
    if cell < 0 || cell >= |s.robots| || s.stores[cell].Some? then s.(lastOk := false)
    else StorePlaced(s, store, cell, tenges, d)
  }

  /**
   * The store lands on a free cell with its tenges (also its original), the
   * maximum grows by them, and the transfer check runs.
   */
  function StorePlaced(s: Snapshot, store: Store, cell: int, tenges: int, d: Draw): (r: Snapshot)
    requires WellFormed(s) && 0 <= cell < |s.robots|
    ensures SameShape(s, r) && r.lastOk
    ensures r.stores == s.stores[cell := Some(store)] && r.originalStoreTenges == s.originalStoreTenges[cell := tenges]
    ensures r.maxProfit == s.maxProfit + tenges
    ensures r.robots == s.robots && r.robotTenges == s.robotTenges && r.robotOrigins == s.robotOrigins
    ensures r.profit == s.profit && r.profitPerLocation == s.profitPerLocation
    ensures forall j :: 0 <= j < |s.robots| && j != cell && !Coincide(s, j) ==> r.storeTenges[j] == s.storeTenges[j]
    ensures s.robots[cell].None? ==> r.storeTenges[cell] == tenges
    ensures FirstCoincide(s) == -1 && s.robots[cell].None? ==> r.storeTenges == s.storeTenges[cell := tenges]
  {
    TransferIfCoincide(Stocked(s, store, cell, tenges), 0, d).after.(lastOk := true)
  }

  /** The store with its tenges on the cell, the bound grown by them, before the transfer check. */
  function Stocked(s: Snapshot, store: Store, cell: int, tenges: int): (r: Snapshot)
    requires WellFormed(s) && 0 <= cell < |s.robots|
    ensures SameShape(s, r)
    ensures r.stores == s.stores[cell := Some(store)]
    ensures r.storeTenges == s.storeTenges[cell := tenges] && r.originalStoreTenges == s.originalStoreTenges[cell := tenges]
    ensures r.maxProfit == s.maxProfit + tenges
    ensures r == s.(stores := r.stores, storeTenges := r.storeTenges, originalStoreTenges := r.originalStoreTenges,
                    maxProfit := r.maxProfit)
  {
    s.(stores := s.stores[cell := Some(store)],
       storeTenges := s.storeTenges[cell := tenges],
       originalStoreTenges := s.originalStoreTenges[cell := tenges],
       maxProfit := s.maxProfit + tenges)
  }

  /** placeStore(type, location, tenges): an unknown type fails; otherwise addStoreToLocation. */
  function PlaceStore(s: Snapshot, kind: string, location: int, tenges: int, pick: nat, d: Draw): (r: Snapshot)
    requires WellFormed(s)
    ensures SameShape(s, r)
    ensures Stores.Create(kind).None? ==> r == s.(lastOk := false)
  {
    match Stores.Create(kind)
    case None => s.(lastOk := false)
    case Some(store) => AddStoreToLocation(s, store, location, tenges, pick, d)
  }

  // ---- resupply ----

  /**
   * The balance resupplyStores leaves on cell i: a store is raised to the
   * profit recorded for its cell when that is positive and larger; nothing
   * else changes.
   */
  function Resupplied(s: Snapshot, i: int): (b: int)
    requires WellFormed(s) && 0 <= i < |s.robots|
    ensures b >= s.storeTenges[i]
    ensures s.stores[i].None? ==> b == s.storeTenges[i]
  {
    if s.stores[i].None? then s.storeTenges[i]
    else
      var original := if s.profitPerLocation[i] <= 0 then s.storeTenges[i] else s.profitPerLocation[i];
      var diff := original - s.storeTenges[i];
      if diff > 0 then original else s.storeTenges[i]
  }

  /** What resupplying the cells below k adds to the balances. */
  function ResupplyGainUpTo(s: Snapshot, k: nat): (g: int)
    requires WellFormed(s) && k <= |s.robots|
    ensures g >= 0
    decreases k
  {
    if k == 0 then 0 else ResupplyGainUpTo(s, k - 1) + (Resupplied(s, k - 1) - s.storeTenges[k - 1])
  }

  function ResupplyStores(s: Snapshot): (r: Snapshot)
    requires WellFormed(s)
    ensures SameShape(s, r)
    ensures forall i :: 0 <= i < |s.robots| ==> r.storeTenges[i] == Resupplied(s, i)
    ensures r == s.(storeTenges := r.storeTenges, maxProfit := r.maxProfit, lastOk := true)
    ensures r.maxProfit == s.maxProfit + ResupplyGainUpTo(s, |s.robots|)
  {
    s.(storeTenges := seq(|s.robots|, i requires 0 <= i < |s.robots| => Resupplied(s, i)),
       maxProfit := s.maxProfit + ResupplyGainUpTo(s, |s.robots|),
       lastOk := true)
  }

  // ---- moving one robot ----

  /**
   * executeRobotMovement for the robot on `location`. The robot's own check
   * comes first (a rejection is remembered by the robot); an accepted robot
   * is reset, then the target must lie on the road and be free of robots. On
   * success the robot moves with its tenges, the transfer check runs with its
   * tenges, and the robot's net gain goes to its tenges, the profit and the
   * profit of the target cell; the origin travels with it. So a move
   * succeeds exactly when the robot allows it and the target is a free cell
   * on the road; a failure changes only the flag and the moving robot's own
   * state; a success credits the same net gain to the robot's tenges, the
   * profit and the target's profit.
   */
  function ExecuteMove(s: Snapshot, location: int, meters: int, d: Draw): (r: Snapshot)
    requires WellFormed(s) && 0 <= location < |s.robots| && s.robots[location].Some?
    ensures SameShape(s, r)
  {
    var robot := s.robots[location].value;
    var check := Robots.CheckMove(robot, meters);
    if !check.0 then s.(robots := s.robots[location := Some(check.1)], lastOk := false)
    else
      var reset := Robots.ResetDirection(check.1);
      var s1 := s.(robots := s.robots[location := Some(reset)]);
      var target := location + meters;
      if target < 0 || target >= |s.robots| || s1.robots[target].Some? then s1.(lastOk := false)
      else Moved(s1, location, target, d)
  }

  /**
   * The robot on `location` goes to the free cell `target` with its tenges
   * and its origin; whatever the transfer check yields there, net of the
   * distance walked, is credited alike to its tenges, the profit and the
   * target's profit. Stores only see their balances change.
   */
  function Moved(s: Snapshot, location: int, target: int, d: Draw): (r: Snapshot)
    requires WellFormed(s) && 0 <= location < |s.robots| && 0 <= target < |s.robots| && location != target
    requires s.robots[location].Some? && s.robots[target].None?
    ensures SameShape(s, r) && r.lastOk
    ensures r.robots == s.robots[location := None][target := s.robots[location]] && r.stores == s.stores
    ensures r.robotOrigins == s.robotOrigins[target := OriginOf(s, location)]
    ensures r.robotTenges == s.robotTenges[location := 0][target := r.robotTenges[target]]
    ensures r.robotTenges[target] - s.robotTenges[location] == r.profit - s.profit
    ensures r.profitPerLocation == s.profitPerLocation[target := s.profitPerLocation[target] + (r.profit - s.profit)]
    ensures var tr := TransferIfCoincide(Shifted(s, location, target), s.robotTenges[location], d);
            && r.profit == s.profit + Robots.NetGain(s.robots[location].value, tr.collected, Abs(target - location))
            && r.storeTenges == tr.after.storeTenges
  {
    Arrive(Shifted(s, location, target), target, s.robotTenges[location], OriginOf(s, location),
           s.robots[location].value, Abs(target - location), d)
  }

  /**
   * A robot with `tenges` from `origin` has just reached `target` after
   * walking `distance`: the transfer check runs with its tenges, and its net
   * gain goes to its tenges, the profit and the target's profit; the origin
   * travels with it.
   */
  function Arrive(s: Snapshot, target: int, tenges: int, origin: int, robot: Robot, distance: int, d: Draw): (r: Snapshot)
    requires WellFormed(s) && 0 <= target < |s.robots| && 0 <= origin < |s.robots|
    ensures SameShape(s, r) && r.lastOk
    ensures r.robots == s.robots && r.stores == s.stores && r.robotOrigins == s.robotOrigins[target := origin]
    ensures r.robotTenges == s.robotTenges[target := r.robotTenges[target]]
    ensures r.robotTenges[target] - tenges == r.profit - s.profit
    ensures r.profitPerLocation == s.profitPerLocation[target := s.profitPerLocation[target] + (r.profit - s.profit)]
    ensures r.profit == s.profit + Robots.NetGain(robot, TransferIfCoincide(s, tenges, d).collected, distance)
    ensures r.storeTenges == TransferIfCoincide(s, tenges, d).after.storeTenges
  {
    var tr := TransferIfCoincide(s, tenges, d);
    Paid(tr.after, target, tenges, origin, robot, tr.collected, distance)
  }

  /** After the transfer check: the robot's net gain is credited, the bound updated and ok set. */
  function Paid(s: Snapshot, target: int, tenges: int, origin: int, robot: Robot, collected: int, distance: int): (r: Snapshot)
    requires WellFormed(s) && 0 <= target < |s.robots| && 0 <= origin < |s.robots|
    ensures SameShape(s, r) && r.lastOk && r.maxProfit >= 1
    ensures r.robots == s.robots && r.stores == s.stores && r.storeTenges == s.storeTenges
    ensures r.profit == s.profit + Robots.NetGain(robot, collected, distance)
    ensures r.robotTenges == s.robotTenges[target := tenges + Robots.NetGain(robot, collected, distance)]
    ensures r.robotOrigins == s.robotOrigins[target := origin]
    ensures r.profitPerLocation[target] - s.profitPerLocation[target] == r.profit - s.profit
    ensures LedgerGap(r) == LedgerGap(s)
  {
    var gain := Robots.NetGain(robot, collected, distance);
    UpdateMaxProfit(Credited(s, target, tenges + gain, gain, origin)).(lastOk := true)
  }

  /** The robot on `location` is now on `target`; both cells' robot tenges are 0 for the moment. */
  function Shifted(s: Snapshot, location: int, target: int): (r: Snapshot)
    requires WellFormed(s) && 0 <= location < |s.robots| && 0 <= target < |s.robots|
    ensures SameShape(s, r) && r == s.(robots := r.robots, robotTenges := r.robotTenges)
    ensures r.robots[target] == s.robots[location]
    ensures location != target ==> r.robots[location].None?
  {
    s.(robots := s.robots[location := None][target := s.robots[location]],
       robotTenges := s.robotTenges[location := 0][target := 0])
  }

  /** The moved robot's tenges, the profit, the target's profit and the robot's origin after a move. */
  function Credited(s: Snapshot, target: int, tenges: int, gain: int, origin: int): (r: Snapshot)
    requires WellFormed(s) && 0 <= target < |s.robots| && 0 <= origin < |s.robots|
    ensures SameShape(s, r)
    ensures r == s.(robotTenges := r.robotTenges, profit := r.profit,
                    profitPerLocation := r.profitPerLocation, robotOrigins := r.robotOrigins)
    ensures r.robotTenges == s.robotTenges[target := tenges] && r.robotOrigins == s.robotOrigins[target := origin]
    ensures r.profit - s.profit == gain && r.profitPerLocation[target] - s.profitPerLocation[target] == gain
    ensures r.profitPerLocation == s.profitPerLocation[target := r.profitPerLocation[target]]
    ensures LedgerGap(r) == LedgerGap(s)
  {
    SumUpdate(s.profitPerLocation, target, s.profitPerLocation[target] + gain);
    s.(robotTenges := s.robotTenges[target := tenges],
       profit := s.profit + gain,
       profitPerLocation := s.profitPerLocation[target := s.profitPerLocation[target] + gain],
       robotOrigins := s.robotOrigins[target := origin])
  }

  /** moveRobot: a bad source cell or an empty one changes nothing, the flag included. */
  function MoveRobot(s: Snapshot, location: int, meters: int, d: Draw): (r: Snapshot)
    requires WellFormed(s)
    ensures SameShape(s, r)
    ensures !(0 <= location < |s.robots| && s.robots[location].Some?) ==> r == s
    ensures LedgerGap(r) == LedgerGap(s)
  {
    if location < 0 || location >= |s.robots| || s.robots[location].None? then s
    else
      ExecuteMovePreservesLedger(s, location, meters, d);
      ExecuteMove(s, location, meters, d)
  }

  // ---- moving every robot ----

  /**
   * The moving pass of moveRobots over the remaining stores: each store, with
   * its balance as it is at that moment, is offered to the best robot by the
   * planned positions; a non-negative gain triggers a real move, and the
   * planned position follows the robot whether or not the move succeeds.
   * The k-th store's move uses draw(k).
   */
  function GreedyMoves(s: Snapshot, cur: seq<int>, sites: seq<int>, k: nat, draw: nat -> Draw): (r: Snapshot)
    requires WellFormed(s) && |cur| > 0 && Greedy.SitesIn(sites, s.storeTenges)
    ensures SameShape(s, r) && LedgerGap(r) == LedgerGap(s)
    ensures sites == [] ==> r == s
    decreases |sites|
  {
    if sites == [] then s
    else
      var step := GreedyStep(s, cur, sites[0], draw(k));
      GreedyMoves(step.0, step.1, sites[1..], k + 1, draw)
  }

  /** The moving pass starts with the step for its first store. */
  lemma GreedyMovesFirst(s: Snapshot, cur: seq<int>, sites: seq<int>, k: nat, draw: nat -> Draw)
    requires WellFormed(s) && |cur| > 0 && Greedy.SitesIn(sites, s.storeTenges) && sites != []
    ensures var step := GreedyStep(s, cur, sites[0], draw(k));
            GreedyMoves(s, cur, sites, k, draw) == GreedyMoves(step.0, step.1, sites[1..], k + 1, draw)
  {
  }

  /**
   * The moving pass takes one draw per store, in order: the k-th store of
   * the pass uses draw(k), and no other draw plays a part.
   */
  lemma {:induction false} GreedyMovesUsesItsDraws(s: Snapshot, cur: seq<int>, sites: seq<int>, k: nat,
                                                   draw: nat -> Draw, other: nat -> Draw)
    requires WellFormed(s) && |cur| > 0 && Greedy.SitesIn(sites, s.storeTenges)
    requires forall i: nat :: k <= i < k + |sites| ==> draw(i) == other(i)
    ensures GreedyMoves(s, cur, sites, k, draw) == GreedyMoves(s, cur, sites, k, other)
    decreases |sites|
  {
    if sites != [] {
      var step := GreedyStep(s, cur, sites[0], draw(k));
      GreedyMovesUsesItsDraws(step.0, step.1, sites[1..], k + 1, draw, other);
    }
  }

  /**
   * One store of the moving pass: the robot GreedyChoice picks, if any, moves
   * to the store's cell, and its planned position becomes that cell.
   */
  function GreedyStep(s: Snapshot, cur: seq<int>, site: int, d: Draw): (r: (Snapshot, seq<int>))
    requires WellFormed(s) && |cur| > 0 && 0 <= site < |s.robots|
    ensures SameShape(s, r.0) && |r.1| == |cur| && LedgerGap(r.0) == LedgerGap(s)
    ensures var c := GreedyChoice(cur, site, s.storeTenges[site]);
            && (c < 0 ==> r == (s, cur))
            && (c >= 0 ==> r.1 == cur[c := site] && r.0 == MoveRobot(s, cur[c], site - cur[c], d))
  {
    var c := GreedyChoice(cur, site, s.storeTenges[site]);
    if c < 0 then (s, cur)
    else (MoveRobot(s, cur[c], site - cur[c], d), cur[c := site])
  }

  /**
   * Which planned position serves the store on `site`: the best robot by
   * `cur` when its gain is not negative, otherwise -1 and nobody moves.
   */
  function GreedyChoice(cur: seq<int>, site: int, balance: int): (c: int)
    requires |cur| > 0
    ensures -1 <= c < |cur|
    ensures c >= 0 <==> Greedy.Gain(balance, site, cur[Greedy.BestRobot(cur, site, balance)]) >= 0
    ensures c >= 0 ==> c == Greedy.BestRobot(cur, site, balance)
  {
    var i := Greedy.BestRobot(cur, site, balance);
    if Greedy.Gain(balance, site, cur[i]) >= 0 then i else -1
  }

  /** The tenges held by the stores the greedy pass visits. */
  function ActiveTotal(s: Snapshot): int
    requires WellFormed(s)
  {
    Greedy.SiteSum(ActiveStores(s), s.storeTenges)
  }

  /** calculateMaxProfitGreedy: the planned pass with the balances as they are, losses skipped. */
  function GreedyEstimate(s: Snapshot): (e: int)
    requires WellFormed(s)
    ensures 0 <= e <= ActiveTotal(s)
  {
    var robots := ActiveRobots(s);
    var sites := ActiveStores(s);
    SiteSumNonNegative(sites, s.storeTenges);
    if |robots| == 0 || |sites| == 0 then 0
    else
      Greedy.SkippingLossesIsNonNegative(robots, sites, s.storeTenges);
      Greedy.TotalAtMostBalances(robots, sites, s.storeTenges, false);
      Greedy.Total(robots, sites, s.storeTenges, false)
  }

  /**
   * moveRobots: with no robot or no store with tenges the maximum becomes 0
   * and nothing moves; otherwise the maximum is set to the estimate, then the
   * moving pass runs from the robots' current cells.
   */
  function MoveRobots(s: Snapshot, draw: nat -> Draw): (r: Snapshot)
    requires WellFormed(s)
    ensures SameShape(s, r)
    ensures LedgerGap(r) == LedgerGap(s)
    ensures |ActiveStores(s)| == 0 || |ActiveRobots(s)| == 0 ==> r == s.(maxProfit := 0)
  {
    var robots := ActiveRobots(s);
    var sites := ActiveStores(s);
    if |sites| == 0 || |robots| == 0 then s.(maxProfit := 0)
    else GreedyMoves(s.(maxProfit := GreedyEstimate(s)), robots, sites, 0, draw)
  }

  /** With robots and stores, moveRobots is the moving pass with the maximum set to the estimate. */
  lemma MoveRobotsIsPass(s: Snapshot, draw: nat -> Draw)
    requires WellFormed(s) && |ActiveRobots(s)| > 0 && |ActiveStores(s)| > 0
    ensures var e := Greedy.Total(ActiveRobots(s), ActiveStores(s), s.storeTenges, false);
            MoveRobots(s, draw) == GreedyMoves(s.(maxProfit := e), ActiveRobots(s), ActiveStores(s), 0, draw)
  {
  }

  // ---- returning robots ----

  /** Cell i of returnRobots: a robot away from a known origin goes back there with its tenges. */
  function ReturnStep(s: Snapshot, i: int): (r: Snapshot)
    requires WellFormed(s) && 0 <= i < |s.robots|
    ensures SameShape(s, r)
    ensures r.profit == s.profit && r.stores == s.stores && r.storeTenges == s.storeTenges
    ensures r.originalStoreTenges == s.originalStoreTenges && r.profitPerLocation == s.profitPerLocation
    ensures s.robots[i].None? || s.robotOrigins[i] == -1 || s.robotOrigins[i] == i ==> r == s
    ensures s.robots[i].Some? && s.robotOrigins[i] != -1 && s.robotOrigins[i] != i ==>
              var o := s.robotOrigins[i];
              && r == s.(robots := r.robots, robotTenges := r.robotTenges, robotOrigins := r.robotOrigins)
              && r.robots == s.robots[i := None][o := Some(Robots.ResetDirection(s.robots[i].value))]
              && r.robotTenges == s.robotTenges[o := s.robotTenges[i]]
              && r.robotOrigins == s.robotOrigins[o := o]
  {
    if s.robots[i].None? then s
    else
      var o := s.robotOrigins[i];
      if o == -1 || o == i then s
      else
        var robot := Robots.ResetDirection(s.robots[i].value);
        s.(robots := s.robots[i := None][o := Some(robot)],
           robotTenges := s.robotTenges[o := s.robotTenges[i]],
           robotOrigins := s.robotOrigins[o := o])
  }

  /** The loop of returnRobots over cells from..: one cell at a time, in increasing order. */
  function ReturnFrom(s: Snapshot, from: nat): (r: Snapshot)
    requires WellFormed(s) && from <= |s.robots|
    ensures SameShape(s, r)
    ensures r.profit == s.profit && r.stores == s.stores && r.storeTenges == s.storeTenges
    ensures r.originalStoreTenges == s.originalStoreTenges && r.profitPerLocation == s.profitPerLocation
    decreases |s.robots| - from
  {
    if from == |s.robots| then s else ReturnFrom(ReturnStep(s, from), from + 1)
  }

  function ReturnRobots(s: Snapshot): (r: Snapshot)
    requires WellFormed(s)
    ensures SameShape(s, r)
    ensures r.profit == s.profit && r.stores == s.stores && r.storeTenges == s.storeTenges && r.lastOk
    ensures r.originalStoreTenges == s.originalStoreTenges && r.profitPerLocation == s.profitPerLocation
  {
    UpdateMaxProfit(ReturnFrom(s, 0)).(lastOk := true)
  }

  /** A robot is settled when it stands on its origin or its origin is unknown. */
  predicate Settled(s: Snapshot)
    requires WellFormed(s)
  {
    forall i :: 0 <= i < |s.robots| && s.robots[i].Some? ==> s.robotOrigins[i] == -1 || s.robotOrigins[i] == i
  }

  // ---- finish, reboot, removal ----

  /**
   * finish: every cell cleared, origins back to -1, profit and maximum 0; in
   * day mode the schedule is dropped and the day index becomes -1.
   */
  function Finish(s: Snapshot): (r: Snapshot)
    requires WellFormed(s)
    ensures SameShape(s, r)
    ensures forall i :: 0 <= i < |r.robots| ==>
              && r.robots[i].None? && r.stores[i].None? && r.robotTenges[i] == 0 && r.storeTenges[i] == 0
              && r.originalStoreTenges[i] == 0 && r.robotOrigins[i] == -1
    ensures forall i :: 0 <= i < |r.profitPerLocation| ==> r.profitPerLocation[i] == 0
    ensures r.profit == 0 && r.maxProfit == 0 && r.lastOk
    ensures s.dayMode && s.schedule.Some? ==> r.schedule.None? && r.dayIndex == -1
    ensures !(s.dayMode && s.schedule.Some?) ==> r.schedule == s.schedule && r.dayIndex == s.dayIndex
  {
    var n := |s.robots|;
    var dropSchedule := s.dayMode && s.schedule.Some?;
    s.(robots := Filled(n, None), stores := Filled(n, None),
       robotTenges := Filled(n, 0), storeTenges := Filled(n, 0),
       profitPerLocation := Filled(n + 1, 0), originalStoreTenges := Filled(n, 0),
       robotOrigins := Filled(n, -1),
       schedule := if dropSchedule then None else s.schedule,
       dayIndex := if dropSchedule then -1 else s.dayIndex,
       profit := 0, maxProfit := 0, lastOk := true)
  }

  /**
   * checkReboots: in day mode with a schedule, the next day's event is applied:
   * past the last row the simulation finishes; a row [1, x] places a normal
   * robot at x; a row [2, x, c] places a normal store and adds c to the
   * maximum again (whether or not the store could be placed); other rows do
   * nothing.
   */
  function CheckReboots(s: Snapshot, d: Draw): (r: Snapshot)
    requires WellFormed(s)
    ensures SameShape(s, r)
  {
    if !s.dayMode || s.schedule.None? then s
    else
      var days := s.schedule.value;
      var day := s.dayIndex + 1;
      var s1 := s.(dayIndex := day);
      if day >= |days| then Finish(s1)
      else DayEvent(s1, days[day], d)
  }

  /**
   * The event of the day: [1, pos] places a normal robot, [2, pos, tenges]
   * places a normal store and raises the bound by its tenges once more; a
   * shorter row or any other row changes nothing.
   */
  function DayEvent(s: Snapshot, event: seq<int>, d: Draw): (r: Snapshot)
    requires WellFormed(s)
    ensures SameShape(s, r)
    ensures |event| < 2 || (event[0] != 1 && !(event[0] == 2 && |event| == 3)) ==> r == s
    ensures |event| >= 2 && event[0] == 1 ==> r == PlaceRobot(s, "normal", event[1], d)
    ensures |event| == 3 && event[0] == 2 ==>
              var placed := PlaceStore(s, "normal", event[1], event[2], 0, d);
              r == placed.(maxProfit := placed.maxProfit + event[2])
  {
    if |event| < 2 then s
    else if event[0] == 1 then PlaceRobot(s, "normal", event[1], d)
    else if event[0] == 2 && |event| == 3 then
      var placed := PlaceStore(s, "normal", event[1], event[2], 0, d);
      placed.(maxProfit := placed.maxProfit + event[2])
    else s
  }

  /** The store loop of reboot: every present store gets its original tenges back. */
  function RestoreStores(s: Snapshot): (r: Snapshot)
    requires WellFormed(s)
    ensures SameShape(s, r) && r == s.(storeTenges := r.storeTenges)
    ensures forall i :: 0 <= i < |s.robots| ==>
              r.storeTenges[i] == if s.stores[i].Some? then s.originalStoreTenges[i] else s.storeTenges[i]
  {
    s.(storeTenges := seq(|s.robots|, i requires 0 <= i < |s.robots| =>
                          if s.stores[i].Some? then s.originalStoreTenges[i] else s.storeTenges[i]))
  }

  /** The robot loop of reboot: every present robot drops to 0 tenges and is reset. */
  function ClearRobots(s: Snapshot): (r: Snapshot)
    requires WellFormed(s)
    ensures SameShape(s, r) && r == s.(robots := r.robots, robotTenges := r.robotTenges)
    ensures forall i :: 0 <= i < |s.robots| ==>
              && (r.robots[i].Some? <==> s.robots[i].Some?)
              && (s.robots[i].Some? ==> r.robots[i].value == Robots.ResetDirection(s.robots[i].value) && r.robotTenges[i] == 0)
              && (s.robots[i].None? ==> r.robotTenges[i] == s.robotTenges[i])
  {
    s.(robots := seq(|s.robots|, i requires 0 <= i < |s.robots| =>
                     if s.robots[i].Some? then Some(Robots.ResetDirection(s.robots[i].value)) else None),
       robotTenges := seq(|s.robots|, i requires 0 <= i < |s.robots| =>
                          if s.robots[i].Some? then 0 else s.robotTenges[i]))
  }

  /** reboot: the day's event (in day mode), then the restart of the road. */
  function Reboot(s: Snapshot, d: Draw): (r: Snapshot)
    requires WellFormed(s)
    ensures SameShape(s, r)
    ensures r.profit == 0 && r.lastOk && r.maxProfit >= 1
  {
    Restart(CheckReboots(s, d))
  }

  /**
   * What reboot does after the day's event: stores restored to their
   * originals, robots returned, robot tenges cleared, profit 0, maximum
   * recomputed.
   */
  function Restart(s: Snapshot): (r: Snapshot)
    requires WellFormed(s)
    ensures SameShape(s, r)
    ensures r.profit == 0 && r.lastOk && r.maxProfit >= 1
  {
    var s2 := RestoreStores(s);
    var s3 := ReturnRobots(s2);
    var s4 := ClearRobots(s3).(profit := 0);
    UpdateMaxProfit(s4).(lastOk := true)
  }

  /** removeStore: a bad cell changes nothing; otherwise the cell's store, balance and original go, and the maximum drops by the balance. */
  function RemoveStore(s: Snapshot, location: int): (r: Snapshot)
    requires WellFormed(s)
    ensures SameShape(s, r)
  {
    if location < 0 || location >= |s.robots| then s
    else s.(stores := s.stores[location := None],
            maxProfit := s.maxProfit - s.storeTenges[location],
            storeTenges := s.storeTenges[location := 0],
            originalStoreTenges := s.originalStoreTenges[location := 0],
            lastOk := true)
  }

  /** removeRobot: a bad cell changes nothing; otherwise the cell's robot and its tenges go (its origin stays). */
  function RemoveRobot(s: Snapshot, location: int): (r: Snapshot)
    requires WellFormed(s)
    ensures SameShape(s, r)
  {
    if location < 0 || location >= |s.robots| then s
    else s.(robots := s.robots[location := None],
            robotTenges := s.robotTenges[location := 0],
            lastOk := true)
  }

  // ==== properties ====

  lemma {:induction false} SiteSumNonNegative(sites: seq<int>, tenges: seq<int>)
    requires Greedy.SitesIn(sites, tenges)
    requires forall k :: 0 <= k < |sites| ==> tenges[sites[k]] > 0
    ensures Greedy.SiteSum(sites, tenges) >= 0
    decreases |sites|
  {
    if sites != [] {
      SiteSumNonNegative(sites[1..], tenges);
    }
  }

  /** A robot placed on a store cell does not keep what the transfer takes: the amount is dropped. */
  lemma PlacementKeepsRobotEmpty(s: Snapshot, robot: Robot, location: int, d: Draw)
    requires WellFormed(s) && 0 <= location < |s.robots| && s.robots[location].None?
    ensures var r := AddRobotToLocation(s, robot, location, d);
            && r.lastOk && r.robots[location] == Some(robot) && r.robotTenges[location] == 0
            && r.robotOrigins[location] == location
            && r.profit == s.profit && r.profitPerLocation == s.profitPerLocation
            && r.stores == s.stores
  {
  }

  /** addRobotToLocation succeeds exactly on a free cell of the road, and otherwise changes nothing. */
  lemma AddRobotOutcome(s: Snapshot, robot: Robot, location: int, d: Draw)
    requires WellFormed(s)
    ensures var r := AddRobotToLocation(s, robot, location, d);
            (0 <= location < |s.robots| && s.robots[location].None?) || r == s
  {
  }

  /** An autonomous store always lands on a free cell when there is one, whatever the location asked for. */
  lemma AutonomousLandsOnFreeCell(s: Snapshot, location: int, tenges: int, pick: nat, d: Draw)
    requires WellFormed(s)
    ensures var r := AddStoreToLocation(s, Stores.Autonomous, location, tenges, pick, d);
            var c := FindRandomPosition(s, pick);
            && (c == -1 ==> r == s.(lastOk := false))
            && (c != -1 ==>
                  && r.lastOk && r.stores[c] == Some(Stores.Autonomous)
                  && r.originalStoreTenges[c] == tenges && r.maxProfit == s.maxProfit + tenges)
  {
  }

  /**
   * A store that keeps its requested cell succeeds on every free cell of the
   * road, whatever stands there or coincides elsewhere: it is there with its
   * original tenges, the bound grows by them, and the robots and the profit
   * are untouched; on a cell without a robot it keeps all its tenges.
   */
  lemma StorePlacementSucceeds(s: Snapshot, store: Store, location: int, tenges: int, pick: nat, d: Draw)
    requires WellFormed(s) && !Stores.NeedsRandomPosition(store)
    requires 0 <= location < |s.robots| && s.stores[location].None?
    ensures var r := AddStoreToLocation(s, store, location, tenges, pick, d);
            && r.lastOk && r.stores == s.stores[location := Some(store)]
            && r.originalStoreTenges == s.originalStoreTenges[location := tenges]
            && r.maxProfit == s.maxProfit + tenges
            && r.robots == s.robots && r.robotTenges == s.robotTenges && r.profit == s.profit
            && (s.robots[location].None? ==> r.storeTenges[location] == tenges)
  {
  }

  /**
   * A store placed under a robot, with no coincidence on an earlier cell,
   * settles with that robot at once: the robot arrives with 0 tenges, so a
   * fighter store refuses it, and any other store gives up what the robot
   * collects (a casino rescaled by its draw). The collection is not credited
   * to anyone.
   */
  lemma StorePlacedUnderRobot(s: Snapshot, store: Store, location: int, tenges: int, d: Draw)
    requires WellFormed(s) && 0 <= location < |s.robots| && s.robots[location].Some? && tenges > 0
    requires forall j :: 0 <= j < location ==> !Coincide(s, j)
    ensures var r := StorePlaced(s, store, location, tenges, d);
            var taken := if Stores.Accepts(store, 0, tenges)
                         then Stores.Process(store, Mediator.Transfer(s.robots[location].value, store, tenges), d) else 0;
            && r.storeTenges[location] == tenges - taken
            && (forall j :: 0 <= j < |s.robots| && j != location ==> r.storeTenges[j] == s.storeTenges[j])
            && r.profit == s.profit && r.robotTenges == s.robotTenges
  {
    var placed := Stocked(s, store, location, tenges);
    assert Coincide(placed, location);
    forall j | 0 <= j < location
      ensures !Coincide(placed, j)
    {
      assert !Coincide(s, j);
    }
    assert FirstCoincide(placed) == location;
  }

  /** A store that keeps its requested cell fails on a cell outside the road or one with a store, and only the flag changes. */
  lemma StorePlacementFails(s: Snapshot, store: Store, location: int, tenges: int, pick: nat, d: Draw)
    requires WellFormed(s) && !Stores.NeedsRandomPosition(store)
    requires location < 0 || location >= |s.robots| || s.stores[location].Some?
    ensures AddStoreToLocation(s, store, location, tenges, pick, d) == s.(lastOk := false)
  {
  }

  /** Whatever the transfer check a store placement runs collects, no robot, robot tenges, origin or profit changes. */
  lemma StorePlacementKeepsRobots(s: Snapshot, store: Store, location: int, tenges: int, pick: nat, d: Draw)
    requires WellFormed(s)
    ensures var r := AddStoreToLocation(s, store, location, tenges, pick, d);
            && r.robots == s.robots && r.robotTenges == s.robotTenges && r.robotOrigins == s.robotOrigins
            && r.profit == s.profit && r.profitPerLocation == s.profitPerLocation
  {
  }

  /**
   * A robot the store rejects still arrives: no balance changes, and the
   * robot's tenges and the profit both drop by the distance walked.
   */
  lemma RejectedRobotStillArrives(s: Snapshot, target: int, tenges: int, origin: int, robot: Robot, distance: int, d: Draw)
    requires WellFormed(s) && 0 <= target < |s.robots| && 0 <= origin < |s.robots| && distance >= 0
    requires FirstCoincide(s) != -1
    requires !Stores.Accepts(s.stores[FirstCoincide(s)].value, tenges, s.storeTenges[FirstCoincide(s)])
    ensures var r := Arrive(s, target, tenges, origin, robot, distance, d);
            && r.storeTenges == s.storeTenges && r.robots == s.robots
            && r.robotTenges[target] == tenges - distance && r.profit == s.profit - distance
  {
    var tr := TransferIfCoincide(s, tenges, d);
    assert tr.collected == 0;
    assert Robots.NetGain(robot, tr.collected, distance) == -distance;
  }

  /** A robot can never move by zero: its own cell is always taken. */
  lemma ZeroMoveFails(s: Snapshot, location: int, d: Draw)
    requires WellFormed(s) && 0 <= location < |s.robots| && s.robots[location].Some?
    ensures !MoveRobot(s, location, 0, d).lastOk
    ensures MoveRobot(s, location, 0, d).robotTenges == s.robotTenges
    ensures MoveRobot(s, location, 0, d).profit == s.profit
  {
  }

  /** An allowed move to a free cell is the arrival there of the robot, reset. */
  lemma MoveIsArrival(s: Snapshot, location: int, meters: int, d: Draw)
    requires WellFormed(s) && 0 <= location < |s.robots| && s.robots[location].Some?
    requires Robots.CheckMove(s.robots[location].value, meters).0
    requires 0 <= location + meters < |s.robots| && s.robots[location + meters].None?
    ensures var reset := Robots.ResetDirection(Robots.CheckMove(s.robots[location].value, meters).1);
            ExecuteMove(s, location, meters, d) == Moved(s.(robots := s.robots[location := Some(reset)]), location, location + meters, d)
  {
  }

  /**
   * A move the robot allows to a free cell on the road succeeds: the robot,
   * reset, leaves its cell for the target with its origin, and the same net
   * gain goes to its tenges, the profit and the target's profit; the stores
   * stay where they are.
   */
  lemma MoveSucceeds(s: Snapshot, location: int, meters: int, d: Draw)
    requires WellFormed(s) && 0 <= location < |s.robots| && s.robots[location].Some?
    requires Robots.CheckMove(s.robots[location].value, meters).0
    requires 0 <= location + meters < |s.robots| && s.robots[location + meters].None?
    ensures var r := ExecuteMove(s, location, meters, d);
            var target := location + meters;
            && r.lastOk
            && r.robots == s.robots[location := None][target := Some(Robots.ResetDirection(Robots.CheckMove(s.robots[location].value, meters).1))]
            && r.robotOrigins == s.robotOrigins[target := OriginOf(s, location)]
            && r.robotTenges[target] - s.robotTenges[location] == r.profit - s.profit
            && r.profitPerLocation == s.profitPerLocation[target := s.profitPerLocation[target] + (r.profit - s.profit)]
            && r.stores == s.stores
    ensures var reset := Robots.ResetDirection(Robots.CheckMove(s.robots[location].value, meters).1);
            var target := location + meters;
            var arrived := s.(robots := s.robots[location := None][target := Some(reset)],
                              robotTenges := s.robotTenges[location := 0][target := 0]);
            var tr := TransferIfCoincide(arrived, s.robotTenges[location], d);
            var r := ExecuteMove(s, location, meters, d);
            && r.profit == s.profit + Robots.NetGain(reset, tr.collected, Abs(meters))
            && r.storeTenges == tr.after.storeTenges
  {
    MoveIsArrival(s, location, meters, d);
    var reset := Robots.ResetDirection(Robots.CheckMove(s.robots[location].value, meters).1);
    var s1 := s.(robots := s.robots[location := Some(reset)]);
    assert s1.robots[location := None] == s.robots[location := None];
    assert OriginOf(s1, location) == OriginOf(s, location);
    assert Shifted(s1, location, location + meters)
        == s.(robots := s.robots[location := None][location + meters := Some(reset)],
              robotTenges := s.robotTenges[location := 0][location + meters := 0]);
  }

  /**
   * Every other move fails: a robot that refuses, a target off the road or
   * a target with a robot (its own cell included) changes only the moving
   * robot's own state and the flag.
   */
  lemma MoveFails(s: Snapshot, location: int, meters: int, d: Draw)
    requires WellFormed(s) && 0 <= location < |s.robots| && s.robots[location].Some?
    requires !(Robots.CheckMove(s.robots[location].value, meters).0
               && 0 <= location + meters < |s.robots| && s.robots[location + meters].None?)
    ensures var r := ExecuteMove(s, location, meters, d);
            var check := Robots.CheckMove(s.robots[location].value, meters);
            && r == s.(robots := s.robots[location := r.robots[location]], lastOk := false)
            && r.robots[location] == Some(if check.0 then Robots.ResetDirection(check.1) else check.1)
  {
  }

  /** Sum of a sequence of integers. */
  function Sum(xs: seq<int>): int
    decreases |xs|
  {
    if xs == [] then 0 else Sum(xs[..|xs| - 1]) + xs[|xs| - 1]
  }

  lemma {:induction false} SumUpdate(xs: seq<int>, i: int, v: int)
    requires 0 <= i < |xs|
    ensures Sum(xs[i := v]) == Sum(xs) - xs[i] + v
    decreases |xs|
  {
    var n := |xs|;
    if i < n - 1 {
      assert xs[i := v][..n - 1] == xs[..n - 1][i := v];
      SumUpdate(xs[..n - 1], i, v);
    } else {
      assert xs[i := v][..n - 1] == xs[..n - 1];
    }
  }

  /** How far the profit per location is from adding up to the profit. */
  function LedgerGap(s: Snapshot): int {
    Sum(s.profitPerLocation) - s.profit
  }

  /** A move books its net gain alike in the profit and in the target's profit. */
  lemma ExecuteMovePreservesLedger(s: Snapshot, location: int, meters: int, d: Draw)
    requires WellFormed(s) && 0 <= location < |s.robots| && s.robots[location].Some?
    ensures LedgerGap(ExecuteMove(s, location, meters, d)) == LedgerGap(s)
  {
    var r := ExecuteMove(s, location, meters, d);
    var target := location + meters;
    if Robots.CheckMove(s.robots[location].value, meters).0 && 0 <= target < |s.robots| && s.robots[target].None? {
      MoveSucceeds(s, location, meters, d);
      SumUpdate(s.profitPerLocation, target, r.profitPerLocation[target]);
    } else {
      MoveFails(s, location, meters, d);
    }
  }

  /** A robot, if any, that is not locked in a direction. */
  predicate FreeToTurn(cell: Option<Robot>) {
    cell.Some? && cell.value.Neverback? ==> cell.value.state.directionLocked == 0
  }

  /** The engine never locks a neverback robot, so every robot it holds stays unlocked. */
  predicate Unlocked(s: Snapshot) {
    forall i :: 0 <= i < |s.robots| ==> FreeToTurn(s.robots[i])
  }

  lemma UnlockedUpdate(s: Snapshot, r: Snapshot, i: int, cell: Option<Robot>)
    requires Unlocked(s) && 0 <= i < |s.robots| && FreeToTurn(cell) && r.robots == s.robots[i := cell]
    ensures Unlocked(r)
  {
    assert forall j :: 0 <= j < |r.robots| ==> r.robots[j] == if j == i then cell else s.robots[j];
  }

  /** An unlocked robot is never turned away by its own check. */
  lemma UnlockedMoveIsAllowed(s: Snapshot, location: int, meters: int)
    requires WellFormed(s) && Unlocked(s) && 0 <= location < |s.robots| && s.robots[location].Some?
    ensures Robots.CheckMove(s.robots[location].value, meters).0
  {
  }

  lemma MoveKeepsUnlocked(s: Snapshot, location: int, meters: int, d: Draw)
    requires WellFormed(s) && Unlocked(s)
    ensures Unlocked(MoveRobot(s, location, meters, d))
  {
    if 0 <= location < |s.robots| && s.robots[location].Some? {
      var target := location + meters;
      var check := Robots.CheckMove(s.robots[location].value, meters);
      var r := MoveRobot(s, location, meters, d);
      assert FreeToTurn(s.robots[location]);
      var reset := Some(Robots.ResetDirection(check.1));
      if check.0 && 0 <= target < |s.robots| && s.robots[target].None? {
        MoveSucceeds(s, location, meters, d);
        var mid := s.(robots := s.robots[location := None]);
        UnlockedUpdate(s, mid, location, None);
        UnlockedUpdate(mid, r, target, reset);
      } else {
        MoveFails(s, location, meters, d);
        UnlockedUpdate(s, r, location, r.robots[location]);
      }
    }
  }

  lemma PlaceRobotKeepsUnlocked(s: Snapshot, kind: string, location: int, d: Draw)
    requires WellFormed(s) && Unlocked(s)
    ensures Unlocked(PlaceRobot(s, kind, location, d))
  {
  }

  /** The loop of returnRobots settles every robot it has passed, and robots it drops elsewhere. */
  lemma {:induction false} ReturnFromSettles(s: Snapshot, from: nat)
    requires WellFormed(s) && from <= |s.robots|
    requires forall j :: 0 <= j < from && s.robots[j].Some? ==> s.robotOrigins[j] == -1 || s.robotOrigins[j] == j
    ensures Settled(ReturnFrom(s, from))
    decreases |s.robots| - from
  {
    if from < |s.robots| {
      var s1 := ReturnStep(s, from);
      assert forall j :: 0 <= j < from + 1 && s1.robots[j].Some? ==> s1.robotOrigins[j] == -1 || s1.robotOrigins[j] == j;
      ReturnFromSettles(s1, from + 1);
    }
  }

  /** No robot on a cell at or after `from`, other than the one on `except`, has `c` as its origin. */
  predicate Unclaimed(t: Snapshot, from: nat, c: int, except: int)
    requires WellFormed(t)
  {
    forall j :: from <= j < |t.robots| && j != except && t.robots[j].Some? ==> t.robotOrigins[j] != c
  }

  /** A step of returnRobots on another cell leaves cell c alone unless its robot returns onto c. */
  lemma ReturnStepElsewhere(t: Snapshot, j: int, c: int)
    requires WellFormed(t) && 0 <= j < |t.robots| && 0 <= c < |t.robots| && j != c
    requires t.robots[j].Some? ==> t.robotOrigins[j] != c
    ensures var t1 := ReturnStep(t, j);
            t1.robots[c] == t.robots[c] && t1.robotTenges[c] == t.robotTenges[c] && t1.robotOrigins[c] == t.robotOrigins[c]
  {
  }

  /** A robot that returns lands on its own origin, so a step keeps every later cell unclaimed. */
  lemma ReturnStepKeepsUnclaimed(t: Snapshot, j: nat, c: int, except: int)
    requires WellFormed(t) && j < |t.robots| && j != except && Unclaimed(t, j, c, except)
    ensures Unclaimed(ReturnStep(t, j), j + 1, c, except)
  {
  }

  /** The step on the robot's own cell puts it on its origin, which no later robot claims. */
  lemma ReturnStepMoves(t: Snapshot, i: int)
    requires WellFormed(t) && 0 <= i < |t.robots| && t.robots[i].Some?
    requires t.robotOrigins[i] != -1 && t.robotOrigins[i] != i && Unclaimed(t, i, t.robotOrigins[i], i)
    ensures var o := t.robotOrigins[i];
            var t1 := ReturnStep(t, i);
            && t1.robots[o] == Some(Robots.ResetDirection(t.robots[i].value))
            && t1.robotTenges[o] == t.robotTenges[i] && t1.robotOrigins[o] == o
            && Unclaimed(t1, i + 1, o, o)
  {
  }

  /**
   * A robot that the loop of returnRobots leaves where it is (already passed,
   * or on its own origin) stays there with its tenges while no robot still
   * to come returns onto its cell.
   */
  lemma {:induction false} ReturnFromKeepsCell(t: Snapshot, from: nat, c: int)
    requires WellFormed(t) && from <= |t.robots| && 0 <= c < |t.robots| && t.robots[c].Some?
    requires from <= c ==> t.robotOrigins[c] == -1 || t.robotOrigins[c] == c
    requires Unclaimed(t, from, c, c)
    ensures var r := ReturnFrom(t, from);
            r.robots[c] == t.robots[c] && r.robotTenges[c] == t.robotTenges[c] && r.robotOrigins[c] == t.robotOrigins[c]
    decreases |t.robots| - from
  {
    if from < |t.robots| {
      if from == c {
        assert ReturnStep(t, from) == t;
        ReturnFromKeepsCell(t, from + 1, c);
      } else {
        ReturnStepElsewhere(t, from, c);
        ReturnStepKeepsUnclaimed(t, from, c, c);
        ReturnFromKeepsCell(ReturnStep(t, from), from + 1, c);
      }
    }
  }

  /**
   * A robot still to be visited, away from a known origin, ends on that
   * origin, reset, with the tenges it had, when no other robot still to come
   * returns onto its cell or onto its origin.
   */
  lemma {:induction false} ReturnFromMovesRobot(t: Snapshot, from: nat, i: int)
    requires WellFormed(t) && from <= i < |t.robots| && t.robots[i].Some?
    requires t.robotOrigins[i] != -1 && t.robotOrigins[i] != i
    requires Unclaimed(t, from, t.robotOrigins[i], i) && Unclaimed(t, from, i, i)
    ensures var o := t.robotOrigins[i];
            var r := ReturnFrom(t, from);
            && r.robots[o] == Some(Robots.ResetDirection(t.robots[i].value))
            && r.robotTenges[o] == t.robotTenges[i] && r.robotOrigins[o] == o
    decreases i - from
  {
    var o := t.robotOrigins[i];
    var t1 := ReturnStep(t, from);
    assert ReturnFrom(t, from) == ReturnFrom(t1, from + 1);
    if from == i {
      ReturnStepMoves(t, i);
      ReturnFromKeepsCell(t1, from + 1, o);
    } else {
      ReturnStepElsewhere(t, from, i);
      ReturnStepKeepsUnclaimed(t, from, o, i);
      ReturnStepKeepsUnclaimed(t, from, i, i);
      assert t1.robotOrigins[i] == o;
      ReturnFromMovesRobot(t1, from + 1, i);
    }
  }

  /**
   * returnRobots brings a robot back to its origin with the tenges it holds
   * (unlocked when it had to move) when no other robot returns onto its cell
   * or its origin; a robot without a known origin, or already on it, stays.
   */
  lemma ReturnRobotsKeepsTenges(s: Snapshot, i: int)
    requires WellFormed(s) && 0 <= i < |s.robots| && s.robots[i].Some?
    requires forall j :: 0 <= j < |s.robots| && j != i && s.robots[j].Some? ==>
               s.robotOrigins[j] != OriginOf(s, i) && s.robotOrigins[j] != i
    ensures var o := OriginOf(s, i);
            var r := ReturnRobots(s);
            && r.robotTenges[o] == s.robotTenges[i]
            && (o == i ==> r.robots[i] == s.robots[i] && r.robotOrigins[i] == s.robotOrigins[i])
            && (o != i ==> r.robots[o] == Some(Robots.ResetDirection(s.robots[i].value)) && r.robotOrigins[o] == o)
  {
    assert Unclaimed(s, 0, OriginOf(s, i), i) && Unclaimed(s, 0, i, i);
    if OriginOf(s, i) == i {
      ReturnFromKeepsCell(s, 0, i);
    } else {
      ReturnFromMovesRobot(s, 0, i);
    }
  }

  /** Once settled, the loop of returnRobots changes nothing. */
  lemma {:induction false} ReturnFromSettledIsIdentity(s: Snapshot, from: nat)
    requires WellFormed(s) && from <= |s.robots| && Settled(s)
    ensures ReturnFrom(s, from) == s
    decreases |s.robots| - from
  {
    if from < |s.robots| {
      assert ReturnStep(s, from) == s;
      ReturnFromSettledIsIdentity(s, from + 1);
    }
  }

  /**
   * returnRobots leaves every robot on its origin (or with no known origin),
   * keeps profit and stores, and doing it twice is the same as doing it once.
   */
  lemma ReturnRobotsSettlesAndIsIdempotent(s: Snapshot)
    requires WellFormed(s)
    ensures Settled(ReturnRobots(s))
    ensures ReturnRobots(ReturnRobots(s)) == ReturnRobots(s)
  {
    ReturnFromSettles(s, 0);
    var back := ReturnFrom(s, 0);
    var r := ReturnRobots(s);
    assert Settled(r);
    ReturnFromSettledIsIdentity(r, 0);
    TotalsDependOnCells(r, back, |s.robots|);
  }

  lemma {:induction false} NoFlagNoIndex(flags: seq<bool>, k: nat)
    requires k <= |flags| && forall i :: 0 <= i < k ==> !flags[i]
    ensures Indices(flags, k) == []
    decreases k
  {
    if k > 0 {
      NoFlagNoIndex(flags, k - 1);
    }
  }

  /** After finish nothing is left, and finishing again changes nothing. */
  lemma FinishIsIdempotent(s: Snapshot)
    requires WellFormed(s)
    ensures Finish(Finish(s)) == Finish(s)
    ensures ActiveRobots(Finish(s)) == [] && ActiveStores(Finish(s)) == []
  {
    var r := Finish(s);
    var f := Finish(r);
    assert f.robots == r.robots;
    assert f.stores == r.stores;
    assert f.robotOrigins == r.robotOrigins;
    NoFlagNoIndex(RobotFlags(r), |r.robots|);
    NoFlagNoIndex(ActiveStoreFlags(r), |r.robots|);
  }

  lemma {:induction false} ResupplyGainZero(s: Snapshot, k: nat)
    requires WellFormed(s) && k <= |s.robots|
    requires forall i :: 0 <= i < k ==> Resupplied(s, i) == s.storeTenges[i]
    ensures ResupplyGainUpTo(s, k) == 0
    decreases k
  {
    if k > 0 {
      ResupplyGainZero(s, k - 1);
    }
  }

  /**
   * resupplyStores never lowers a balance, leaves cells without a store alone,
   * and a second resupply changes nothing.
   */
  lemma ResupplyIsIdempotent(s: Snapshot)
    requires WellFormed(s)
    ensures forall i :: 0 <= i < |s.robots| ==> ResupplyStores(s).storeTenges[i] >= s.storeTenges[i]
    ensures ResupplyStores(ResupplyStores(s)) == ResupplyStores(s)
  {
    var r := ResupplyStores(s);
    assert forall i :: 0 <= i < |s.robots| ==> Resupplied(r, i) == r.storeTenges[i];
    ResupplyGainZero(r, |r.robots|);
    assert ResupplyStores(r).storeTenges == r.storeTenges;
  }

  /** Outside day mode, or without a schedule, the day's event of reboot is no event at all. */
  lemma NoEventOutsideDayMode(s: Snapshot, d: Draw)
    requires WellFormed(s) && (!s.dayMode || s.schedule.None?)
    ensures CheckReboots(s, d) == s
    ensures Reboot(s, d) == Restart(s)
  {
  }

  /**
   * After the restart of reboot: profit is 0, every robot is settled with
   * no tenges and unlocked, every store is back at its original tenges, and
   * no store has come or gone.
   */
  lemma RestartRestores(s: Snapshot)
    requires WellFormed(s)
    ensures var r := Restart(s);
            && Settled(r) && Unlocked(r)
            && (forall i :: 0 <= i < |r.robots| && r.robots[i].Some? ==> r.robotTenges[i] == 0)
            && (forall i :: 0 <= i < |r.robots| && r.stores[i].Some? ==> r.storeTenges[i] == r.originalStoreTenges[i])
            && r.stores == s.stores && r.originalStoreTenges == s.originalStoreTenges
  {
    var s2 := RestoreStores(s);
    ReturnRobotsSettlesAndIsIdempotent(s2);
    var s3 := ReturnRobots(s2);
    var s4 := ClearRobots(s3).(profit := 0);
    assert Settled(s4);
    assert Unlocked(s4);
    var r := UpdateMaxProfit(s4).(lastOk := true);
    assert r == Restart(s);
    assert r.robots == s4.robots && r.robotOrigins == s4.robotOrigins && r.robotTenges == s4.robotTenges;
    assert r.stores == s.stores && r.storeTenges == s2.storeTenges;
  }

  /** removeStore clears the cell's store, balance and original, and nothing else but the maximum. */
  lemma RemoveStoreClears(s: Snapshot, location: int)
    requires WellFormed(s) && 0 <= location < |s.robots|
    ensures var r := RemoveStore(s, location);
            && r.stores[location].None? && r.storeTenges[location] == 0 && r.originalStoreTenges[location] == 0
            && r.maxProfit == s.maxProfit - s.storeTenges[location]
            && (forall i :: 0 <= i < |s.robots| && i != location ==> r.stores[i] == s.stores[i] && r.storeTenges[i] == s.storeTenges[i])
            && r.robots == s.robots && r.profit == s.profit && r.lastOk
  {
  }

  /** removeRobot clears the cell's robot and tenges; the origin recorded there stays. */
  lemma RemoveRobotClears(s: Snapshot, location: int)
    requires WellFormed(s) && 0 <= location < |s.robots|
    ensures var r := RemoveRobot(s, location);
            && r.robots[location].None? && r.robotTenges[location] == 0
            && r.robotOrigins == s.robotOrigins && r.stores == s.stores && r.profit == s.profit && r.lastOk
            && (forall i :: 0 <= i < |s.robots| && i != location ==> r.robots[i] == s.robots[i])
  {
  }
}
