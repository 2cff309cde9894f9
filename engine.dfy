/**
 * The SilkRoad engine as an object whose arrays change in place. Only the
 * logical state is kept: the tenges column of the `robots` and `stores`
 * matrices, the robot and store references (as values), the origins, the
 * originals and the profit per location. Every method is proved to leave the
 * object in the state the matching World function computes from the state
 * before the call.
 */
module Engine {
  import opened JavaLang
  import Robots
  import Stores
  import Mediator
  import Greedy
  import Schedule
  import World

  /** The length SilkRoad(int[][]) picks: the largest event position, at least 1. */
  method RoadLength(schedule: Option<seq<seq<int>>>) returns (length: int)
    ensures length == World.ScheduleLength(schedule)
  {
    var maxPos := 0;
    if schedule.Some? {
      maxPos := Schedule.ComputeMaxPosition(schedule.value);
    }
    length := Max(maxPos, 1);
  }

  /** A new array of n cells, each holding v. */
  method NewFilled<T>(n: nat, v: T) returns (a: array<T>)
    ensures fresh(a) && a[..] == World.Filled(n, v)
  {
    a := new T[n](i => v);
  }

  /** The seven arrays of an empty road with length + 1 cells, all distinct. */
  method NewCells(length: int)
    returns (robots: array<Option<World.Robot>>, tenges: array<int>, origins: array<int>,
             stores: array<Option<World.Store>>, balances: array<int>, originals: array<int>,
             perLocation: array<int>)
    requires length >= -1
    ensures fresh(robots) && fresh(tenges) && fresh(origins) && fresh(stores)
    ensures fresh(balances) && fresh(originals) && fresh(perLocation)
    ensures tenges != origins && tenges != balances && tenges != originals && tenges != perLocation
    ensures origins != balances && origins != originals && origins != perLocation
    ensures balances != originals && balances != perLocation && originals != perLocation
    ensures robots[..] == World.Filled(length + 1, None) && stores[..] == World.Filled(length + 1, None)
    ensures tenges[..] == World.Filled(length + 1, 0) && origins[..] == World.Filled(length + 1, -1)
    ensures balances[..] == World.Filled(length + 1, 0) && originals[..] == World.Filled(length + 1, 0)
    ensures perLocation[..] == World.Filled(length + 2, 0)
  {
    robots := NewFilled(length + 1, None);
    tenges := NewFilled(length + 1, 0);
    origins := NewFilled(length + 1, -1);
    stores := NewFilled(length + 1, None);
    balances := NewFilled(length + 1, 0);
    originals := NewFilled(length + 1, 0);
    perLocation := NewFilled(length + 2, 0);
  }

  class SilkRoad {
    const length: int
    const robotRefs: array<Option<World.Robot>>
    /** robots[i][1]: the tenges of the robot on cell i. */
    const robotTenges: array<int>
    const robotOrigins: array<int>
    const storeRefs: array<Option<World.Store>>
    /** stores[i][1]: the tenges of the store on cell i. */
    const storeTenges: array<int>
    const originalStoreTenges: array<int>
    /** profitPerLocation[i][1]; one entry more than there are cells. */
    const profitPerLocation: array<int>
    var profit: int
    var maxProfit: int
    var lastOperationOK: bool
    var daysSchedule: Option<seq<seq<int>>>
    var dayIndexSchedule: int
    const dayMode: bool

    function State(): World.Snapshot
      reads this, robotRefs, robotTenges, robotOrigins, storeRefs, storeTenges, originalStoreTenges, profitPerLocation
    {
      World.Snapshot(length, robotRefs[..], robotTenges[..], robotOrigins[..], storeRefs[..], storeTenges[..],
                     originalStoreTenges[..], profitPerLocation[..], profit, maxProfit, lastOperationOK,
                     daysSchedule, dayIndexSchedule, dayMode)
    }

    predicate Valid()
      reads this, robotRefs, robotTenges, robotOrigins, storeRefs, storeTenges, originalStoreTenges, profitPerLocation
    {
      && robotTenges != robotOrigins && robotTenges != storeTenges && robotTenges != originalStoreTenges
      && robotTenges != profitPerLocation && robotOrigins != storeTenges && robotOrigins != originalStoreTenges
      && robotOrigins != profitPerLocation && storeTenges != originalStoreTenges
      && storeTenges != profitPerLocation && originalStoreTenges != profitPerLocation
      && World.WellFormed(State())
    }

    /** SilkRoad(int length) */
    constructor (length: int)
      requires length >= -1
      ensures Valid() && State() == World.Initial(length)
    {
      this.length := length;
      var robots, tenges, origins, stores, balances, originals, perLocation := NewCells(length);
      robotRefs, robotTenges, robotOrigins := robots, tenges, origins;
      storeRefs, storeTenges, originalStoreTenges := stores, balances, originals;
      profitPerLocation := perLocation;
      profit := 0;
      maxProfit := 0;
      lastOperationOK := true;
      daysSchedule := None;
      dayIndexSchedule := -1;
      dayMode := false;
      new;
    }

    /** SilkRoad(int[][] schedule): sized by the largest event position, in day mode. */
    constructor FromSchedule(schedule: Option<seq<seq<int>>>)
      ensures Valid() && State() == World.FromSchedule(schedule)
    {
      var length := RoadLength(schedule);
      this.length := length;
      var robots, tenges, origins, stores, balances, originals, perLocation := NewCells(length);
      robotRefs, robotTenges, robotOrigins := robots, tenges, origins;
      storeRefs, storeTenges, originalStoreTenges := stores, balances, originals;
      profitPerLocation := perLocation;
      profit := 0;
      maxProfit := 0;
      lastOperationOK := true;
      daysSchedule := schedule;
      dayIndexSchedule := 0;
      dayMode := true;
      new;
    }

    /** getLength: the road has one cell more than its length. */
    function GetLength(): (n: int)
      reads this, robotRefs, robotTenges, robotOrigins, storeRefs, storeTenges, originalStoreTenges, profitPerLocation
      requires Valid()
      ensures n + 1 == robotRefs.Length && n + 1 == storeRefs.Length
    {
      length
    }

    /** profit */
    function Profit(): (p: int)
      reads this, robotRefs, robotTenges, robotOrigins, storeRefs, storeTenges, originalStoreTenges, profitPerLocation
      ensures p == State().profit
    {
      profit
    }

    /** ok: whether the last operation that reports an outcome succeeded. */
    function Ok(): (b: bool)
      reads this, robotRefs, robotTenges, robotOrigins, storeRefs, storeTenges, originalStoreTenges, profitPerLocation
      ensures b == State().lastOk
    {
      lastOperationOK
    }

    // ---- transfer ----

    /** transferTengesPolimorficos: the store on `location` keeps what was not transferred. */
    method TransferTengesPolimorficos(location: int, collected: int, totalDisponible: int) returns (r: int)
      requires Valid() && 0 <= location < storeTenges.Length
      modifies storeTenges
      ensures Valid()
      ensures State() == old(State()).(storeTenges := old(storeTenges[..])[location := totalDisponible - collected])
      ensures r == collected
    {
      var remaining := totalDisponible - collected;
      storeTenges[location] := remaining;
      return collected;
    }

    /** transferTengesIfCoincide */
    method TransferTengesIfCoincide(robotCurrentTenges: int, d: Stores.Draw) returns (collected: int)
      requires Valid()
      modifies storeTenges
      ensures Valid()
      ensures World.Transferred(State(), collected) == World.TransferIfCoincide(old(State()), robotCurrentTenges, d)
    {
      var i := 0;
      while i < robotRefs.Length
        invariant 0 <= i <= robotRefs.Length
        invariant State() == old(State())
        invariant World.FirstCoincideFrom(State(), i) == World.FirstCoincide(State())
      {
        var r := robotRefs[i];
        if r.Some? {
          var s := storeRefs[i];
          if s.Some? && storeTenges[i] > 0 {
            var storeBalance := storeTenges[i];
            if !Stores.Accepts(s.value, robotCurrentTenges, storeBalance) {
              return 0;
            }
            var taken := Mediator.Transfer(r.value, s.value, storeBalance);
            var finalAmount := Stores.Process(s.value, taken, d);
            collected := TransferTengesPolimorficos(i, finalAmount, storeBalance);
            return;
          }
        }
        i := i + 1;
      }
      return 0;
    }

    // ---- ledger ----

    /** updateMaxProfit */
    method UpdateMaxProfit()
      requires Valid()
      modifies this
      ensures Valid() && State() == World.UpdateMaxProfit(old(State()))
    {
      var totalTenges := 0;
      var totalCost := 0;
      var i := 0;
      while i < storeTenges.Length
        invariant 0 <= i <= storeTenges.Length
        invariant totalTenges == World.StoreTotalUpTo(State(), i)
      {
        if storeRefs[i].Some? {
          totalTenges := totalTenges + storeTenges[i];
        }
        i := i + 1;
      }
      i := 0;
      while i < robotRefs.Length
        invariant 0 <= i <= robotRefs.Length
        invariant totalCost == World.TravelCostUpTo(State(), i)
      {
        if robotRefs[i].Some? {
          var originIndex := robotOrigins[i];
          if originIndex == -1 {
            originIndex := i;
          }
          totalCost := totalCost + Abs(i - originIndex);
        }
        i := i + 1;
      }
      maxProfit := Max(1, totalTenges - totalCost + profit);
    }

    // ---- cell lists ----

    /** getActiveRobots */
    method GetActiveRobots() returns (result: seq<int>)
      requires Valid()
      ensures result == World.ActiveRobots(State())
    {
      ghost var s := State();
      ghost var flags := World.RobotFlags(s);
      result := [];
      var i := 0;
      while i < robotRefs.Length
        invariant 0 <= i <= robotRefs.Length
        invariant result == World.Indices(flags, i)
      {
        assert s.robots[i] == robotRefs[i];
        if robotRefs[i].Some? {
          result := result + [i];
        }
        i := i + 1;
      }
      assert result == World.Indices(flags, |s.robots|);
    }

    /**
     * getActiveStores. The list is built in increasing order, so the final
     * Collections.sort leaves it as it is.
     */
    method GetActiveStores() returns (result: seq<int>)
      requires Valid()
      ensures result == World.ActiveStores(State())
    {
      ghost var s := State();
      ghost var flags := World.ActiveStoreFlags(s);
      result := [];
      var i := 0;
      while i < storeRefs.Length
        invariant 0 <= i <= storeRefs.Length
        invariant result == World.Indices(flags, i)
      {
        assert s.stores[i] == storeRefs[i] && s.storeTenges[i] == storeTenges[i];
        if storeRefs[i].Some? && storeTenges[i] > 0 {
          result := result + [i];
        }
        i := i + 1;
      }
      assert result == World.Indices(flags, |s.robots|);
    }

    /** The scan of emptiedStores: the cells it reports, without the dialog and the recolouring. */
    method EmptiedStores() returns (result: seq<int>)
      requires Valid()
      ensures result == World.EmptiedStores(State())
    {
      ghost var s := State();
      ghost var flags := World.EmptyStoreFlags(s);
      result := [];
      var i := 0;
      while i < storeRefs.Length
        invariant 0 <= i <= storeRefs.Length
        invariant result == World.Indices(flags, i)
      {
        assert s.stores[i] == storeRefs[i] && s.storeTenges[i] == storeTenges[i];
        if storeRefs[i].Some? && storeTenges[i] == 0 {
          result := result + [i];
        }
        i := i + 1;
      }
      assert result == World.Indices(flags, |s.robots|);
    }

    /** encontrarPosicionRandom, with `pick` standing for the random index. */
    method EncontrarPosicionRandom(pick: nat) returns (c: int)
      requires Valid()
      ensures c == World.FindRandomPosition(State(), pick)
    {
      ghost var s := State();
      ghost var flags := World.FreeFlags(s);
      var available := [];
      var i := 0;
      while i < storeRefs.Length
        invariant 0 <= i <= storeRefs.Length
        invariant available == World.Indices(flags, i)
      {
        assert s.stores[i] == storeRefs[i];
        if storeRefs[i].None? {
          available := available + [i];
        }
        i := i + 1;
      }
      if |available| == 0 {
        return -1;
      }
      return available[pick % |available|];
    }

    // ---- placement ----

    /** addRobotToLocation */
    method AddRobotToLocation(robot: World.Robot, location: int, d: Stores.Draw)
      requires Valid()
      modifies this, robotRefs, robotTenges, robotOrigins, storeTenges
      ensures Valid() && State() == World.AddRobotToLocation(old(State()), robot, location, d)
    {
      if location < 0 || location >= robotRefs.Length {
        return;
      }
      if robotRefs[location].Some? {
        return;
      }
      PutRobot(robot, location, d);
    }

    /** The successful part of addRobotToLocation. */
    method PutRobot(robot: World.Robot, location: int, d: Stores.Draw)
      requires Valid() && 0 <= location < robotRefs.Length
      modifies this, robotRefs, robotTenges, robotOrigins, storeTenges
      ensures Valid() && State() == World.RobotPlaced(old(State()), robot, location, d)
    {
      robotRefs[location] := Some(robot);
      robotTenges[location] := 0;
      robotOrigins[location] := location;
      var discarded := TransferTengesIfCoincide(0, d);
      lastOperationOK := true;
    }

    /** placeRobot(type, location) */
    method PlaceRobotOfType(kind: string, location: int, d: Stores.Draw)
      requires Valid()
      modifies this, robotRefs, robotTenges, robotOrigins, storeTenges
      ensures Valid() && State() == World.PlaceRobot(old(State()), kind, location, d)
    {
      var robot := Robots.Create(kind);
      if robot.None? {
        lastOperationOK := false;
        return;
      }
      AddRobotToLocation(robot.value, location, d);
    }

    /** placeRobot(location): a normal robot. */
    method PlaceRobot(location: int, d: Stores.Draw)
      requires Valid()
      modifies this, robotRefs, robotTenges, robotOrigins, storeTenges
      ensures Valid() && State() == World.PlaceRobot(old(State()), "normal", location, d)
    {
      PlaceRobotOfType("normal", location, d);
    }

    /** addStoreToLocation, with `pick` standing for the random index an autonomous store uses. */
    method AddStoreToLocation(store: World.Store, location: int, tenges: int, pick: nat, d: Stores.Draw)
      requires Valid()
      modifies this, storeRefs, storeTenges, originalStoreTenges
      ensures Valid() && State() == World.AddStoreToLocation(old(State()), store, location, tenges, pick, d)
    {
      var cell := location;
      if Stores.NeedsRandomPosition(store) {
        cell := EncontrarPosicionRandom(pick);
        if cell < 0 {
          lastOperationOK := false;
          return;
        }
      }
      if cell < 0 || cell >= storeRefs.Length {
        lastOperationOK := false;
        return;
      }
      if storeRefs[cell].Some? {
        lastOperationOK := false;
        return;
      }
      PutStore(store, cell, tenges, d);
    }

    /** The successful part of addStoreToLocation. */
    method PutStore(store: World.Store, cell: int, tenges: int, d: Stores.Draw)
      requires Valid() && 0 <= cell < storeRefs.Length
      modifies this, storeRefs, storeTenges, originalStoreTenges
      ensures Valid() && State() == World.StorePlaced(old(State()), store, cell, tenges, d)
    {
      Stock(store, cell, tenges);
      var discarded := TransferTengesIfCoincide(0, d);
      lastOperationOK := true;
    }

    /** The store and its tenges go on the cell; the bound grows by them. */
    method Stock(store: World.Store, cell: int, tenges: int)
      requires Valid() && 0 <= cell < storeRefs.Length
      modifies this, storeRefs, storeTenges, originalStoreTenges
      ensures Valid() && State() == World.Stocked(old(State()), store, cell, tenges)
    {
      storeRefs[cell] := Some(store);
      storeTenges[cell] := tenges;
      originalStoreTenges[cell] := tenges;
      maxProfit := maxProfit + tenges;
    }

    /** placeStore(type, location, tenges) */
    method PlaceStoreOfType(kind: string, location: int, tenges: int, pick: nat, d: Stores.Draw)
      requires Valid()
      modifies this, storeRefs, storeTenges, originalStoreTenges
      ensures Valid() && State() == World.PlaceStore(old(State()), kind, location, tenges, pick, d)
    {
      var store := Stores.Create(kind);
      if store.None? {
        lastOperationOK := false;
        return;
      }
      AddStoreToLocation(store.value, location, tenges, pick, d);
    }

    /** placeStore(location, tenges): a normal store, which never picks a random cell. */
    method PlaceStore(location: int, tenges: int, d: Stores.Draw)
      requires Valid()
      modifies this, storeRefs, storeTenges, originalStoreTenges
      ensures Valid() && State() == World.PlaceStore(old(State()), "normal", location, tenges, 0, d)
    {
      PlaceStoreOfType("normal", location, tenges, 0, d);
    }

    /** resupplyStores */
    method ResupplyStores()
      requires Valid()
      modifies this, storeTenges
      ensures Valid() && State() == World.ResupplyStores(old(State()))
    {
      ghost var s := State();
      var added := 0;
      var i := 0;
      while i < storeTenges.Length
        invariant 0 <= i <= storeTenges.Length
        invariant forall j :: 0 <= j < i ==> storeTenges[j] == World.Resupplied(s, j)
        invariant forall j :: i <= j < storeTenges.Length ==> storeTenges[j] == s.storeTenges[j]
        invariant added == World.ResupplyGainUpTo(s, i)
        modifies storeTenges
      {
        assert storeRefs[i] == s.stores[i] && profitPerLocation[i] == s.profitPerLocation[i];
        if storeRefs[i].Some? {
          var originalTenges := profitPerLocation[i];
          if originalTenges <= 0 {
            originalTenges := storeTenges[i];
          }
          var diff := originalTenges - storeTenges[i];
          if diff > 0 {
            storeTenges[i] := originalTenges;
            added := added + diff;
          }
        }
        i := i + 1;
      }
      maxProfit := maxProfit + added;
      lastOperationOK := true;
      assert storeTenges[..] == World.ResupplyStores(s).storeTenges;
    }

    // ---- movement ----

    /**
     * validateRobotMovement: asks the robot; a refusal sets the flag to false
     * (the robot remembers the attempt), an acceptance resets the robot.
     */
    method ValidateRobotMovement(location: int, meters: int) returns (allowed: bool)
      requires Valid() && 0 <= location < robotRefs.Length && robotRefs[location].Some?
      modifies this, robotRefs
      ensures Valid()
      ensures var check := Robots.CheckMove(old(robotRefs[location]).value, meters);
              && allowed == check.0
              && (allowed ==> State() == old(State()).(robots := old(robotRefs[..])[location := Some(Robots.ResetDirection(check.1))]))
              && (!allowed ==> State() == old(State()).(robots := old(robotRefs[..])[location := Some(check.1)], lastOk := false))
    {
      var check := Robots.CheckMove(robotRefs[location].value, meters);
      robotRefs[location] := Some(check.1);
      if !check.0 {
        lastOperationOK := false;
        return false;
      }
      robotRefs[location] := Some(Robots.ResetDirection(check.1));
      return true;
    }

    /** executeRobotMovement */
    method ExecuteRobotMovement(location: int, meters: int, d: Stores.Draw)
      requires Valid() && 0 <= location < robotRefs.Length && robotRefs[location].Some?
      modifies this, robotRefs, robotTenges, robotOrigins, storeTenges, profitPerLocation
      ensures Valid() && State() == World.ExecuteMove(old(State()), location, meters, d)
    {
      ghost var s := State();
      var allowed := ValidateRobotMovement(location, meters);
      if !allowed {
        World.MoveFails(s, location, meters, d);
        return;
      }
      var newLocation := location + meters;
      if newLocation < 0 || newLocation >= robotRefs.Length || robotRefs[newLocation].Some? {
        World.MoveFails(s, location, meters, d);
        SetLastOk(false);
        return;
      }
      World.MoveIsArrival(s, location, meters, d);
      Move(location, meters, d);
    }

    /**
     * The robot on `location` goes `meters` along the road to a free cell:
     * it takes its tenges and its origin along, and the transfer check runs
     * where it arrives.
     */
    method Move(location: int, meters: int, d: Stores.Draw)
      requires Valid() && 0 <= location < robotRefs.Length && 0 <= location + meters < robotRefs.Length && meters != 0
      requires robotRefs[location].Some? && robotRefs[location + meters].None?
      modifies this, robotRefs, robotTenges, robotOrigins, storeTenges, profitPerLocation
      ensures Valid() && State() == World.Moved(old(State()), location, location + meters, d)
    {
      ghost var s := State();
      var r := robotRefs[location];
      var newLocation := location + meters;
      var tengesActuales := robotTenges[location];
      var originVal := robotOrigins[location];
      if originVal == -1 {
        originVal := location;
      }
      var distance := Abs(meters);
      assert r == s.robots[location] && tengesActuales == s.robotTenges[location];
      assert originVal == World.OriginOf(s, location) && distance == Abs(newLocation - location);
      assert World.Moved(s, location, newLocation, d)
          == World.Arrive(World.Shifted(s, location, newLocation), newLocation, tengesActuales, originVal, r.value, distance, d);
      Shift(location, newLocation);
      Arrive(newLocation, tengesActuales, originVal, r.value, distance, d);
    }

    /**
     * The robot that has just reached `newLocation`: the transfer check runs
     * with its tenges, and its net gain is credited.
     */
    method Arrive(newLocation: int, tengesActuales: int, originVal: int, robot: World.Robot, distance: int, d: Stores.Draw)
      requires Valid() && 0 <= newLocation < robotRefs.Length && 0 <= originVal < robotRefs.Length
      modifies this, robotTenges, robotOrigins, storeTenges, profitPerLocation
      ensures Valid()
      ensures State() == World.Arrive(old(State()), newLocation, tengesActuales, originVal, robot, distance, d)
    {
      ghost var s := State();
      var collected := TransferTengesIfCoincide(tengesActuales, d);
      ghost var tr := World.TransferIfCoincide(s, tengesActuales, d);
      assert State() == tr.after && collected == tr.collected;
      Settle(newLocation, tengesActuales, originVal, robot, collected, distance);
    }

    /** The net gain is credited, the bound updated and ok set. */
    method Settle(newLocation: int, tengesActuales: int, originVal: int, robot: World.Robot, collected: int, distance: int)
      requires Valid() && 0 <= newLocation < robotRefs.Length && 0 <= originVal < robotRefs.Length
      modifies this, robotTenges, robotOrigins, profitPerLocation
      ensures Valid()
      ensures State() == World.Paid(old(State()), newLocation, tengesActuales, originVal, robot, collected, distance)
    {
      var netGain := Robots.NetGain(robot, collected, distance);
      Credit(newLocation, tengesActuales + netGain, netGain, originVal);
      UpdateMaxProfit();
      SetLastOk(true);
    }

    /** The robot leaves `location` for `newLocation`; both cells' tenges are zeroed. */
    method Shift(location: int, newLocation: int)
      requires Valid() && 0 <= location < robotRefs.Length && 0 <= newLocation < robotRefs.Length
      modifies robotRefs, robotTenges
      ensures Valid() && State() == World.Shifted(old(State()), location, newLocation)
    {
      var r := robotRefs[location];
      robotRefs[location] := None;
      robotTenges[location] := 0;
      robotRefs[newLocation] := r;
      robotTenges[newLocation] := 0;
    }

    /** The moved robot's tenges, profit, cell profit and origin after the transfer. */
    method Credit(newLocation: int, tenges: int, netGain: int, origin: int)
      requires Valid() && 0 <= newLocation < robotRefs.Length && 0 <= origin < robotRefs.Length
      modifies this, robotTenges, robotOrigins, profitPerLocation
      ensures Valid() && State() == World.Credited(old(State()), newLocation, tenges, netGain, origin)
    {
      robotTenges[newLocation] := tenges;
      profit := profit + netGain;
      profitPerLocation[newLocation] := profitPerLocation[newLocation] + netGain;
      robotOrigins[newLocation] := origin;
    }

    /** moveRobot: a bad or empty source cell is ignored. */
    method MoveRobot(location: int, meters: int, d: Stores.Draw)
      requires Valid()
      modifies this, robotRefs, robotTenges, robotOrigins, storeTenges, profitPerLocation
      ensures Valid() && State() == World.MoveRobot(old(State()), location, meters, d)
    {
      if location < 0 || location >= robotRefs.Length {
        return;
      }
      if robotRefs[location].None? {
        return;
      }
      ExecuteRobotMovement(location, meters, d);
    }

    /** calculateMaxProfitGreedy: plans on a copy of the robot cells; changes no field. */
    method CalculateMaxProfitGreedy(robots: seq<int>, tiendas: seq<int>) returns (gananciaMaxima: int)
      requires Valid() && Greedy.SitesIn(tiendas, storeTenges[..])
      ensures |robots| == 0 || |tiendas| == 0 ==> gananciaMaxima == 0
      ensures |robots| > 0 && |tiendas| > 0 ==> gananciaMaxima == Greedy.Total(robots, tiendas, storeTenges[..], false)
    {
      if |robots| == 0 || |tiendas| == 0 {
        return 0;
      }
      var robotActual := new int[|robots|](i requires 0 <= i < |robots| => robots[i]);
      assert robotActual[..] == robots;
      gananciaMaxima := 0;
      var k := 0;
      while k < |tiendas|
        invariant 0 <= k <= |tiendas| && robotActual.Length == |robots|
        invariant gananciaMaxima + Greedy.Total(robotActual[..], tiendas[k..], storeTenges[..], false)
                  == Greedy.Total(robots, tiendas, storeTenges[..], false)
      {
        var tienda := tiendas[k];
        var robotSeleccionado, mejorGanancia := Greedy.SelectRobot(robotActual, tienda, storeTenges[tienda]);
        assert tiendas[k..][1..] == tiendas[k + 1..];
        if mejorGanancia >= 0 {
          gananciaMaxima := gananciaMaxima + mejorGanancia;
          robotActual[robotSeleccionado] := tienda;
        }
        k := k + 1;
      }
    }

    /**
     * moveRobots: `draw(k)` is the casino draw for the move made for the k-th
     * store of the pass.
     */
    method MoveRobots(draw: nat -> Stores.Draw)
      requires Valid()
      modifies this, robotRefs, robotTenges, robotOrigins, storeTenges, profitPerLocation
      ensures Valid() && State() == World.MoveRobots(old(State()), draw)
    {
      ghost var s := State();
      var robots := GetActiveRobots();
      var tiendas := GetActiveStores();
      if |tiendas| == 0 || |robots| == 0 {
        SetMaxProfit(0);
        return;
      }
      var gananciaMaxima := CalculateMaxProfitGreedy(robots, tiendas);
      SetMaxProfit(gananciaMaxima);
      World.MoveRobotsIsPass(s, draw);
      MovePass(robots, tiendas, draw);
    }

    /** The accumulated profit takes a new value; nothing else changes. */
    method SetProfit(value: int)
      requires Valid()
      modifies this
      ensures Valid() && State() == old(State()).(profit := value)
    {
      profit := value;
    }

    /** The flag of the last operation takes a new value; nothing else changes. */
    method SetLastOk(ok: bool)
      requires Valid()
      modifies this
      ensures Valid() && State() == old(State()).(lastOk := ok)
    {
      lastOperationOK := ok;
    }

    /** The progress-bar maximum takes a new value; nothing else changes. */
    method SetMaxProfit(value: int)
      requires Valid()
      modifies this
      ensures Valid() && State() == old(State()).(maxProfit := value)
    {
      maxProfit := value;
    }

    /** The moving loop of moveRobots, over a working copy of the robot cells. */
    method MovePass(robots: seq<int>, tiendas: seq<int>, draw: nat -> Stores.Draw)
      requires Valid() && |robots| > 0 && Greedy.SitesIn(tiendas, storeTenges[..])
      modifies this, robotRefs, robotTenges, robotOrigins, storeTenges, profitPerLocation
      ensures Valid() && State() == World.GreedyMoves(old(State()), robots, tiendas, 0, draw)
    {
      var robotActual := new int[|robots|](i requires 0 <= i < |robots| => robots[i]);
      assert robotActual[..] == robots;
      var k := 0;
      while k < |tiendas|
        invariant 0 <= k <= |tiendas| && robotActual.Length == |robots|
        invariant fresh(robotActual) && Valid()
        invariant World.GreedyMoves(State(), robotActual[..], tiendas[k..], k, draw)
                  == World.GreedyMoves(old(State()), robots, tiendas, 0, draw)
      {
        World.GreedyMovesFirst(State(), robotActual[..], tiendas[k..], k, draw);
        assert tiendas[k..][1..] == tiendas[k + 1..];
        MoveToStore(robotActual, tiendas[k], draw(k));
        k := k + 1;
      }
      assert tiendas[k..] == [];
    }

    /** One store of the moving pass: the best robot moves there when its gain is not negative. */
    method MoveToStore(robotActual: array<int>, tienda: int, d: Stores.Draw)
      requires Valid() && robotActual.Length > 0 && 0 <= tienda < storeTenges.Length
      requires robotActual != robotTenges && robotActual != robotOrigins && robotActual != storeTenges
      requires robotActual != originalStoreTenges && robotActual != profitPerLocation
      modifies this, robotRefs, robotTenges, robotOrigins, storeTenges, profitPerLocation, robotActual
      ensures Valid()
      ensures (State(), robotActual[..]) == World.GreedyStep(old(State()), old(robotActual[..]), tienda, d)
    {
      var robotSeleccionado, mejorGanancia := Greedy.SelectRobot(robotActual, tienda, storeTenges[tienda]);
      if mejorGanancia >= 0 {
        var posActualRobot := robotActual[robotSeleccionado];
        var meters := tienda - posActualRobot;
        MoveRobot(posActualRobot, meters, d);
        robotActual[robotSeleccionado] := tienda;
      }
    }

    // ---- returning, rebooting, finishing ----

    /** returnRobots */
    method ReturnRobots()
      requires Valid()
      modifies this, robotRefs, robotTenges, robotOrigins
      ensures Valid() && State() == World.ReturnRobots(old(State()))
    {
      ReturnEach();
      UpdateMaxProfit();
      lastOperationOK := true;
    }

    /** The loop of returnRobots. */
    method ReturnEach()
      requires Valid()
      modifies robotRefs, robotTenges, robotOrigins
      ensures Valid() && State() == World.ReturnFrom(old(State()), 0)
    {
      var i := 0;
      while i < robotRefs.Length
        invariant 0 <= i <= robotRefs.Length
        invariant Valid()
        invariant World.ReturnFrom(State(), i) == World.ReturnFrom(old(State()), 0)
      {
        ReturnRobotAt(i);
        i := i + 1;
      }
    }

    /** One cell of the returnRobots loop. */
    method ReturnRobotAt(i: int)
      requires Valid() && 0 <= i < robotRefs.Length
      modifies robotRefs, robotTenges, robotOrigins
      ensures Valid() && State() == World.ReturnStep(old(State()), i)
    {
      var r := robotRefs[i];
      if r.Some? {
        var originIndex := robotOrigins[i];
        if originIndex != -1 && originIndex != i {
          var currentTenges := robotTenges[i];
          var back := Robots.ResetDirection(r.value);
          robotRefs[i] := None;
          robotRefs[originIndex] := Some(back);
          robotTenges[originIndex] := currentTenges;
          robotOrigins[originIndex] := originIndex;
        }
      }
    }

    /** finish */
    method Finish()
      requires Valid()
      modifies this, robotRefs, robotTenges, robotOrigins, storeRefs, storeTenges, originalStoreTenges, profitPerLocation
      ensures Valid() && State() == World.Finish(old(State()))
    {
      ghost var r := World.Finish(State());
      Fill(storeRefs, None);
      Fill(robotRefs, None);
      Fill(storeTenges, 0);
      Fill(robotTenges, 0);
      Fill(profitPerLocation, 0);
      Fill(originalStoreTenges, 0);
      Fill(robotOrigins, -1);
      if dayMode && daysSchedule.Some? {
        daysSchedule := None;
        dayIndexSchedule := -1;
      }
      profit := 0;
      maxProfit := 0;
      lastOperationOK := true;
      assert robotRefs[..] == r.robots;
      assert storeRefs[..] == r.stores;
      assert robotOrigins[..] == r.robotOrigins;
      assert robotTenges[..] == r.robotTenges;
      assert storeTenges[..] == r.storeTenges;
      assert originalStoreTenges[..] == r.originalStoreTenges;
      assert profitPerLocation[..] == r.profitPerLocation;
    }

    /** checkReboots */
    method CheckReboots(d: Stores.Draw)
      requires Valid()
      modifies this, robotRefs, robotTenges, robotOrigins, storeRefs, storeTenges, originalStoreTenges, profitPerLocation
      ensures Valid() && State() == World.CheckReboots(old(State()), d)
    {
      if !dayMode || daysSchedule.None? {
        return;
      }
      dayIndexSchedule := dayIndexSchedule + 1;
      if dayIndexSchedule >= |daysSchedule.value| {
        Finish();
        return;
      }
      ApplyEvent(daysSchedule.value[dayIndexSchedule], d);
    }

    /** The event of the day, as checkReboots reads it. */
    method ApplyEvent(evento: seq<int>, d: Stores.Draw)
      requires Valid()
      modifies this, robotRefs, robotTenges, robotOrigins, storeRefs, storeTenges, originalStoreTenges, profitPerLocation
      ensures Valid() && State() == World.DayEvent(old(State()), evento, d)
    {
      if |evento| < 2 {
        return;
      }
      var tipo := evento[0];
      var pos := evento[1];
      if tipo == 1 {
        PlaceRobot(pos, d);
      } else if tipo == 2 && |evento| == 3 {
        var tenges := evento[2];
        PlaceStore(pos, tenges, d);
        SetMaxProfit(maxProfit + tenges);
      }
    }

    /** reboot */
    method Reboot(d: Stores.Draw)
      requires Valid()
      modifies this, robotRefs, robotTenges, robotOrigins, storeRefs, storeTenges, originalStoreTenges, profitPerLocation
      ensures Valid() && State() == World.Reboot(old(State()), d)
    {
      CheckReboots(d);
      Restart();
    }

    /** The part of reboot after the day's event. */
    method Restart()
      requires Valid()
      modifies this, robotRefs, robotTenges, robotOrigins, storeTenges
      ensures Valid() && State() == World.Restart(old(State()))
    {
      RestoreStores();
      ReturnRobots();
      ClearRobots();
      SetProfit(0);
      UpdateMaxProfit();
      SetLastOk(true);
    }

    /** The store loop of reboot. */
    method RestoreStores()
      requires Valid()
      modifies storeTenges
      ensures Valid() && State() == World.RestoreStores(old(State()))
    {
      var i := 0;
      while i < storeRefs.Length
        invariant 0 <= i <= storeRefs.Length
        invariant forall j :: 0 <= j < i ==> storeTenges[j] == if storeRefs[j].Some? then originalStoreTenges[j] else old(storeTenges[j])
        invariant forall j :: i <= j < storeTenges.Length ==> storeTenges[j] == old(storeTenges[j])
      {
        if storeRefs[i].Some? {
          storeTenges[i] := originalStoreTenges[i];
        }
        i := i + 1;
      }
      assert storeTenges[..] == World.RestoreStores(old(State())).storeTenges;
    }

    /** The robot loop of reboot. */
    method ClearRobots()
      requires Valid()
      modifies robotRefs, robotTenges
      ensures Valid() && State() == World.ClearRobots(old(State()))
    {
      var i := 0;
      while i < robotRefs.Length
        invariant 0 <= i <= robotRefs.Length
        invariant forall j :: 0 <= j < i ==> robotRefs[j] == if old(robotRefs[j]).Some? then Some(Robots.ResetDirection(old(robotRefs[j]).value)) else None
        invariant forall j :: 0 <= j < i ==> robotTenges[j] == if old(robotRefs[j]).Some? then 0 else old(robotTenges[j])
        invariant forall j :: i <= j < robotRefs.Length ==> robotRefs[j] == old(robotRefs[j]) && robotTenges[j] == old(robotTenges[j])
      {
        if robotRefs[i].Some? {
          robotTenges[i] := 0;
          robotRefs[i] := Some(Robots.ResetDirection(robotRefs[i].value));
        }
        i := i + 1;
      }
      assert robotRefs[..] == World.ClearRobots(old(State())).robots;
      assert robotTenges[..] == World.ClearRobots(old(State())).robotTenges;
    }

    // ---- removal ----

    /** removeStore */
    method RemoveStore(location: int)
      requires Valid()
      modifies this, storeRefs, storeTenges, originalStoreTenges
      ensures Valid() && State() == World.RemoveStore(old(State()), location)
    {
      if location < 0 || location >= storeTenges.Length {
        return;
      }
      storeRefs[location] := None;
      maxProfit := maxProfit - storeTenges[location];
      storeTenges[location] := 0;
      originalStoreTenges[location] := 0;
      lastOperationOK := true;
    }

    /** removeRobot */
    method RemoveRobot(location: int)
      requires Valid()
      modifies this, robotRefs, robotTenges
      ensures Valid() && State() == World.RemoveRobot(old(State()), location)
    {
      if location < 0 || location >= robotRefs.Length {
        return;
      }
      robotRefs[location] := None;
      robotTenges[location] := 0;
      lastOperationOK := true;
    }
  }

  /** Arrays.fill, and the loops that clear one column of a matrix. */
  method Fill<T>(a: array<T>, v: T)
    modifies a
    ensures a[..] == World.Filled(a.Length, v)
  {
    forall i | 0 <= i < a.Length {
      a[i] := v;
    }
  }
}
