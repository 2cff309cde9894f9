/**
 * SilkRoadContest.solve. For every event prefix 1..limit of a day table a
 * fresh contest is loaded and the greedy assignment is run, counting losses
 * too; the answer for the k-th prefix is the best profit seen so far, never
 * below zero. A null table answers like a table with fewer than two rows.
 */
module Contest {
  import opened JavaLang
  import Greedy
  import Schedule
  import World
  import Engine

  /** The three parallel arrays of a SilkRoadContest, as values. */
  datatype Board = Board(robotPos: seq<int>, storeTenges: seq<int>, storeExists: seq<bool>)

  predicate Sized(b: Board) {
    |b.storeTenges| == |b.robotPos| && |b.storeExists| == |b.robotPos|
  }

  /** SilkRoadContest(length): every robot position -1, no store. */
  function Empty(length: nat): (b: Board)
    ensures Sized(b) && |b.robotPos| == length + 1
  {
    Board(World.Filled(length + 1, -1), World.Filled(length + 1, 0), World.Filled(length + 1, false))
  }

  /** An event that writes a cell when loaded: a robot, or a store with a balance. */
  predicate Writes(event: seq<int>) {
    |event| >= 2 && (event[0] == 1 || (event[0] == 2 && |event| >= 3))
  }

  /**
   * Loading one event: a robot marks its own cell with its position; a store
   * sets the cell's balance (replacing an earlier one) and exists; a short
   * row or another type is skipped.
   */
  function Apply(b: Board, event: seq<int>): (r: Board)
    requires Sized(b) && (Writes(event) ==> 0 <= event[1] < |b.robotPos|)
    ensures Sized(r) && |r.robotPos| == |b.robotPos|
    ensures !Writes(event) ==> r == b
  {
    if |event| < 2 then b
    else if event[0] == 1 then b.(robotPos := b.robotPos[event[1] := event[1]])
    else if event[0] == 2 && |event| >= 3 then
      b.(storeTenges := b.storeTenges[event[1] := event[2]], storeExists := b.storeExists[event[1] := true])
    else b
  }

  /** Every row up to `n` that writes a cell names one of the board's cells. */
  predicate FitsUpTo(days: seq<seq<int>>, n: nat, cells: int) {
    forall i :: 1 <= i <= n && i < |days| && Writes(days[i]) ==> 0 <= days[i][1] < cells
  }

  /** Events 1..n of `days`, loaded in order. */
  function LoadUpTo(b: Board, days: seq<seq<int>>, n: nat): (r: Board)
    requires Sized(b) && n < |days| && FitsUpTo(days, n, |b.robotPos|)
    ensures Sized(r) && |r.robotPos| == |b.robotPos|
    decreases n
  {
    if n == 0 then b else Apply(LoadUpTo(b, days, n - 1), days[n])
  }

  /** getRobotsActivos: the cells whose robot position is the cell itself, in increasing order. */
  function ActiveRobots(b: Board): (r: seq<int>)
    requires Sized(b)
    ensures forall a, c :: 0 <= a < c < |r| ==> r[a] < r[c]
    ensures forall i :: i in r <==> 0 <= i < |b.robotPos| && b.robotPos[i] == i
  {
    World.IndicesListsFlags(RobotFlags(b), |b.robotPos|);
    World.Indices(RobotFlags(b), |b.robotPos|)
  }

  function RobotFlags(b: Board): (f: seq<bool>)
    requires Sized(b)
    ensures |f| == |b.robotPos|
    ensures forall i :: 0 <= i < |f| ==> (f[i] <==> b.robotPos[i] == i)
  {
    seq(|b.robotPos|, i requires 0 <= i < |b.robotPos| => b.robotPos[i] == i)
  }

  function StoreFlags(b: Board): (f: seq<bool>)
    requires Sized(b)
    ensures |f| == |b.robotPos|
    ensures forall i :: 0 <= i < |f| ==> (f[i] <==> b.storeExists[i] && b.storeTenges[i] > 0)
  {
    seq(|b.robotPos|, i requires 0 <= i < |b.robotPos| => b.storeExists[i] && b.storeTenges[i] > 0)
  }

  /**
   * getTiendasActivas: the cells with a store holding tenges. The scan
   * already lists them in increasing order, so the sort that follows it
   * leaves the list as it is.
   */
  function ActiveStores(b: Board): (r: seq<int>)
    requires Sized(b)
    ensures forall a, c :: 0 <= a < c < |r| ==> r[a] < r[c]
    ensures forall i :: i in r <==> 0 <= i < |b.robotPos| && b.storeExists[i] && b.storeTenges[i] > 0
    ensures Greedy.SitesIn(r, b.storeTenges)
  {
    World.IndicesListsFlags(StoreFlags(b), |b.robotPos|);
    World.Indices(StoreFlags(b), |b.robotPos|)
  }

  /**
   * calculateOptimalProfit: nothing without a robot or a store; otherwise
   * the greedy pass over the stores, every gain counted, losses included.
   */
  function OptimalProfit(b: Board): (p: int)
    requires Sized(b)
    ensures |ActiveStores(b)| == 0 || |ActiveRobots(b)| == 0 ==> p == 0
    ensures p <= Greedy.SiteSum(ActiveStores(b), b.storeTenges)
  {
    var robots := ActiveRobots(b);
    var stores := ActiveStores(b);
    assert forall k :: 0 <= k < |stores| ==> stores[k] in stores;
    World.SiteSumNonNegative(stores, b.storeTenges);
    if |stores| == 0 || |robots| == 0 then 0
    else
      Greedy.TotalAtMostBalances(robots, stores, b.storeTenges, true);
      Greedy.Total(robots, stores, b.storeTenges, true)
  }

  /** The event count of the header row. */
  function EventCount(days: seq<seq<int>>): int
    requires |days| >= 2 && |days[0]| > 0
  {
    days[0][0]
  }

  /**
   * What solve demands of its table: a header with the event count, and a
   * position no smaller than 0 in every robot or store row it loads.
   */
  predicate Loadable(days: seq<seq<int>>) {
    |days| >= 2 ==>
      && |days[0]| > 0
      && forall i :: 1 <= i < |days| && i <= days[0][0] && Writes(days[i]) ==> days[i][1] >= 0
  }

  /** The contest loaded with events 1..limit (or every event, when the table is shorter). */
  function PrefixBoard(days: seq<seq<int>>, limit: nat): (b: Board)
    requires |days| >= 2 && Loadable(days) && 1 <= limit <= EventCount(days)
    ensures Sized(b)
  {
    var n := Min(limit, |days| - 1);
    Fits(days, n);
    LoadUpTo(Empty(Schedule.MaxPosition(days)), days, n)
  }

  function Min(a: int, b: int): int {
    if a <= b then a else b
  }

  /** Loaded rows lie on the road solve sizes from the largest position. */
  lemma Fits(days: seq<seq<int>>, n: nat)
    requires |days| >= 2 && Loadable(days) && n < |days| && n <= EventCount(days)
    ensures FitsUpTo(days, n, Schedule.MaxPosition(days) + 1)
  {
    forall i | 1 <= i <= n && i < |days| && Writes(days[i])
      ensures 0 <= days[i][1] < Schedule.MaxPosition(days) + 1
    {
      assert |days[i]| > 1;
    }
  }

  /** The profit of the contest loaded with the first `limit` events. */
  function PrefixProfit(days: seq<seq<int>>, limit: nat): int
    requires |days| >= 2 && Loadable(days) && 1 <= limit <= EventCount(days)
  {
    OptimalProfit(PrefixBoard(days, limit))
  }

  /**
   * One round of solve earns nothing without a loaded robot or a store with
   * tenges, and never more than the loaded stores hold.
   */
  lemma PrefixProfitBounded(days: seq<seq<int>>, limit: nat)
    requires |days| >= 2 && Loadable(days) && 1 <= limit <= EventCount(days)
    ensures var b := PrefixBoard(days, limit);
            && (|ActiveStores(b)| == 0 || |ActiveRobots(b)| == 0 ==> PrefixProfit(days, limit) == 0)
            && PrefixProfit(days, limit) <= Greedy.SiteSum(ActiveStores(b), b.storeTenges)
  {
  }

  /** The profits of the prefixes 1..n, in order. */
  function Profits(days: seq<seq<int>>, n: nat): (p: seq<int>)
    requires |days| >= 2 && Loadable(days) && n <= Entries(days)
    ensures |p| == n
    decreases n
  {
    if n == 0 then [] else Profits(days, n - 1) + [PrefixProfit(days, n)]
  }

  /** Entry l of the profits is the profit of the prefix 1..l + 1. */
  lemma {:induction false} ProfitsAt(days: seq<seq<int>>, n: nat, l: nat)
    requires |days| >= 2 && Loadable(days) && l < n <= Entries(days)
    ensures Profits(days, n)[l] == PrefixProfit(days, l + 1)
    decreases n
  {
    if l < n - 1 {
      ProfitsAt(days, n - 1, l);
    }
  }

  /** The number of entries solve reports. */
  function Entries(days: seq<seq<int>>): (n: nat)
    requires |days| >= 2 && Loadable(days)
    ensures n == 0 || n == EventCount(days)
  {
    Max(EventCount(days), 0)
  }

  /** The largest of 0 and the first n profits: the maximum solve keeps as it goes. */
  function RunningMax(p: seq<int>, n: nat): (m: int)
    requires n <= |p|
    ensures m >= 0
    ensures forall l :: 0 <= l < n ==> p[l] <= m
    ensures m == 0 || exists l :: 0 <= l < n && m == p[l]
    decreases n
  {
    if n == 0 then 0 else Max(RunningMax(p, n - 1), p[n - 1])
  }

  /** Entry k is the running maximum of the first k + 1 profits. */
  function Maxima(p: seq<int>): (r: seq<int>)
    ensures |r| == |p|
    ensures forall k :: 0 <= k < |r| ==> r[k] == RunningMax(p, k + 1)
    decreases |p|
  {
    if |p| == 0 then []
    else
      var q := p[..|p| - 1];
      var r := Maxima(q);
      assert forall k :: 0 <= k < |r| ==> r[k] == RunningMax(p, k + 1) by {
        forall k | 0 <= k < |r|
          ensures r[k] == RunningMax(p, k + 1)
        {
          assert p[..k + 1] == q[..k + 1];
          RunningMaxPrefix(p, q, k + 1);
        }
      }
      r + [RunningMax(p, |p|)]
  }

  /** solve: one entry per event, the running maximum of the prefix profits. */
  function Solution(days: seq<seq<int>>): (r: seq<int>)
    requires Loadable(days)
    ensures |days| < 2 ==> r == []
    ensures |days| >= 2 ==> |r| == Max(EventCount(days), 0)
  {
    if |days| < 2 then [] else Maxima(Profits(days, Entries(days)))
  }

  /** The maximum never falls as more profits are seen. */
  lemma {:induction false} RunningMaxGrows(p: seq<int>, m: nat, n: nat)
    requires m <= n <= |p|
    ensures RunningMax(p, m) <= RunningMax(p, n)
    decreases n - m
  {
    if m < n {
      RunningMaxGrows(p, m, n - 1);
    }
  }

  /** Adding a profit appends the new running maximum to the maxima. */
  lemma MaximaExtends(p: seq<int>, x: int)
    ensures Maxima(p + [x]) == Maxima(p) + [Max(RunningMax(p, |p|), x)]
    ensures RunningMax(p + [x], |p| + 1) == Max(RunningMax(p, |p|), x)
  {
    var q := p + [x];
    assert q[..|p|] == p[..|p|] == p;
    RunningMaxPrefix(q, p, |p|);
  }

  /** The maximum of the first n profits depends on those n only. */
  lemma {:induction false} RunningMaxPrefix(p: seq<int>, q: seq<int>, n: nat)
    requires n <= |p| && n <= |q| && p[..n] == q[..n]
    ensures RunningMax(p, n) == RunningMax(q, n)
    decreases n
  {
    if n > 0 {
      assert p[..n - 1] == p[..n][..n - 1] && q[..n - 1] == q[..n][..n - 1];
      assert p[n - 1] == p[..n][n - 1];
      assert q[n - 1] == q[..n][n - 1];
      RunningMaxPrefix(p, q, n - 1);
    }
  }

  /**
   * Every entry k of the maxima is at least 0 and at least each of the
   * first k + 1 profits, is 0 or one of them, and the maxima never decrease.
   */
  lemma MaximaAreRunningMaximum(p: seq<int>)
    ensures var r := Maxima(p);
            && (forall k :: 0 <= k < |r| ==> r[k] >= 0)
            && (forall k, l :: 0 <= l <= k < |r| ==> p[l] <= r[k])
            && (forall k :: 0 <= k < |r| ==> r[k] == 0 || exists l :: 0 <= l <= k && r[k] == p[l])
            && (forall j, k :: 0 <= j <= k < |r| ==> r[j] <= r[k])
  {
    var r := Maxima(p);
    forall j, k | 0 <= j <= k < |r|
      ensures r[j] <= r[k]
    {
      RunningMaxGrows(p, j + 1, k + 1);
    }
  }

  /** Once the profits stop changing, so do the maxima. */
  lemma {:induction false} MaximaSettle(p: seq<int>, i: nat, k: nat)
    requires i <= k < |p|
    requires forall l :: i <= l < |p| ==> p[l] == p[i]
    ensures Maxima(p)[k] == Maxima(p)[i]
    decreases k
  {
    if k > i {
      MaximaSettle(p, i, k - 1);
      assert Maxima(p)[k - 1] == RunningMax(p, k);
      assert p[i] <= RunningMax(p, k);
    }
  }

  /** Past the last row of the table a longer prefix loads nothing new. */
  lemma ProfitsSettle(days: seq<seq<int>>, n: nat)
    requires |days| >= 2 && Loadable(days) && |days| - 2 < n <= Entries(days)
    ensures forall l :: |days| - 2 <= l < n ==> Profits(days, n)[l] == Profits(days, n)[|days| - 2]
  {
    var p := Profits(days, n);
    forall l | |days| - 2 <= l < n
      ensures p[l] == p[|days| - 2]
    {
      ProfitsAt(days, n, l);
      ProfitsAt(days, n, |days| - 2);
      PrefixProfitSettles(days, l + 1);
    }
  }

  /** A prefix that covers the whole table earns what the whole table earns. */
  lemma PrefixProfitSettles(days: seq<seq<int>>, limit: nat)
    requires |days| >= 2 && Loadable(days) && |days| - 1 <= limit <= EventCount(days)
    ensures PrefixProfit(days, limit) == PrefixProfit(days, |days| - 1)
  {
    assert PrefixBoard(days, limit) == PrefixBoard(days, |days| - 1);
  }

  /** Once every row of the table is loaded the answer stays where it is. */
  lemma SolutionSettles(days: seq<seq<int>>, k: nat)
    requires |days| >= 2 && Loadable(days) && |days| - 2 <= k < EventCount(days)
    ensures Solution(days)[k] == Solution(days)[|days| - 2]
  {
    ProfitsSettle(days, Entries(days));
    MaximaSettle(Profits(days, Entries(days)), |days| - 2, k);
  }

  /** A later store event on the same cell replaces the earlier balance. */
  lemma LaterStoreReplaces(b: Board, first: seq<int>, second: seq<int>)
    requires Sized(b) && |first| >= 3 && |second| >= 3 && first[0] == 2 && second[0] == 2
    requires first[1] == second[1] && 0 <= first[1] < |b.robotPos|
    ensures Apply(Apply(b, first), second) == Apply(b, second)
    ensures Apply(Apply(b, first), second).storeTenges[second[1]] == second[2]
  {
    var p := first[1];
    assert b.storeTenges[p := first[2]][p := second[2]] == b.storeTenges[p := second[2]];
    assert b.storeExists[p := true][p := true] == b.storeExists[p := true];
  }

  /** The day table of the worked example: a robot at 0, then a store of 100 tenges at 5. */
  function ExampleDays(): (days: seq<seq<int>>)
    ensures |days| == 3 && |days[0]| == 1 && days[0][0] == 2
  {
    [[2], [1, 0], [2, 5, 100]]
  }

  /** The example's prefix boards: the robot alone, then the robot and the store. */
  lemma ExampleBoards()
    ensures Loadable(ExampleDays())
    ensures PrefixBoard(ExampleDays(), 1)
            == Board([0, -1, -1, -1, -1, -1], [0, 0, 0, 0, 0, 0], [false, false, false, false, false, false])
    ensures PrefixBoard(ExampleDays(), 2)
            == Board([0, -1, -1, -1, -1, -1], [0, 0, 0, 0, 0, 100], [false, false, false, false, false, true])
  {
    var days := ExampleDays();
    assert Writes(days[1]) && Writes(days[2]);
    assert Schedule.MaxPosition(days) == 5 by {
      assert days[..2][..1] == days[..1];
      assert days[..|days| - 1] == days[..2];
    }
    var e := Empty(5);
    assert e.robotPos == [-1, -1, -1, -1, -1, -1];
    assert e.storeTenges == [0, 0, 0, 0, 0, 0];
    assert e.storeExists == [false, false, false, false, false, false];
  }

  /** A robot and no store earn nothing. */
  lemma ExampleFirstProfit()
    ensures OptimalProfit(Board([0, -1, -1, -1, -1, -1], [0, 0, 0, 0, 0, 0], [false, false, false, false, false, false])) == 0
  {
    var b := Board([0, -1, -1, -1, -1, -1], [0, 0, 0, 0, 0, 0], [false, false, false, false, false, false]);
    var flags := [false, false, false, false, false, false];
    assert StoreFlags(b) == flags;
    assert World.Indices(flags, 6) == [];
  }

  /** The robot at 0 walks 5 meters to the store of 100 tenges. */
  lemma ExampleSecondProfit()
    ensures OptimalProfit(Board([0, -1, -1, -1, -1, -1], [0, 0, 0, 0, 0, 100], [false, false, false, false, false, true])) == 95
  {
    var b := Board([0, -1, -1, -1, -1, -1], [0, 0, 0, 0, 0, 100], [false, false, false, false, false, true]);
    ExampleActive(b);
    OptimalProfitIsTotal(b);
    assert Greedy.Total([0], [5], b.storeTenges, true) == 95 by {
      assert [5][1..] == [];
    }
  }

  /** The example board has its robot at 0 and its one active store at 5. */
  lemma ExampleActive(b: Board)
    requires b == Board([0, -1, -1, -1, -1, -1], [0, 0, 0, 0, 0, 100], [false, false, false, false, false, true])
    ensures ActiveRobots(b) == [0] && ActiveStores(b) == [5]
  {
    var robots := [true, false, false, false, false, false];
    assert RobotFlags(b) == robots;
    assert World.Indices(robots, 6) == [0] by {
      assert World.Indices(robots, 1) == [0];
      assert World.Indices(robots, 3) == [0];
      assert World.Indices(robots, 5) == [0];
    }
    var stores := [false, false, false, false, false, true];
    assert StoreFlags(b) == stores;
    assert World.Indices(stores, 6) == [5] by {
      assert World.Indices(stores, 3) == [];
      assert World.Indices(stores, 5) == [];
    }
  }

  /** With a robot and an active store, the profit is the greedy total that counts losses. */
  lemma OptimalProfitIsTotal(b: Board)
    requires Sized(b) && |ActiveStores(b)| > 0 && |ActiveRobots(b)| > 0
    ensures OptimalProfit(b) == Greedy.Total(ActiveRobots(b), ActiveStores(b), b.storeTenges, true)
  {
  }

  /**
   * The worked example: nothing can be earned after the first event,
   * 100 - 5 after the second.
   */
  lemma SolutionExample()
    ensures Solution(ExampleDays()) == [0, 95]
  {
    var days := ExampleDays();
    ExampleBoards();
    ExampleFirstProfit();
    ExampleSecondProfit();
    var p := Profits(days, 2);
    assert Entries(days) == 2;
    assert p == [PrefixProfit(days, 1), PrefixProfit(days, 2)];
    assert p == [0, 95];
    assert Maxima(p)[0] == 0 && Maxima(p)[1] == 95;
  }

  /** A SilkRoadContest: robot positions, store balances and existence per cell, and the profit. */
  class SilkRoadContest {
    const robotPos: array<int>
    const storeTenges: array<int>
    const storeExists: array<bool>
    var profit: int

    function State(): Board
      reads robotPos, storeTenges, storeExists
    {
      Board(robotPos[..], storeTenges[..], storeExists[..])
    }

    predicate Valid()
      reads this
    {
      robotPos != storeTenges && storeTenges.Length == robotPos.Length && storeExists.Length == robotPos.Length
    }

    /** SilkRoadContest(length) */
    constructor (length: nat)
      ensures Valid() && State() == Empty(length) && profit == 0
      ensures fresh(robotPos) && fresh(storeTenges) && fresh(storeExists)
    {
      var positions := Engine.NewFilled(length + 1, -1);
      var balances := Engine.NewFilled(length + 1, 0);
      var exists_ := Engine.NewFilled(length + 1, false);
      robotPos, storeTenges, storeExists := positions, balances, exists_;
      profit := 0;
    }

    /** The body of solve's loading loop for one event. */
    method Load(event: seq<int>)
      requires Valid() && (Writes(event) ==> 0 <= event[1] < robotPos.Length)
      modifies robotPos, storeTenges, storeExists
      ensures Valid() && State() == Apply(old(State()), event)
    {
      if |event| < 2 {
        return;
      }
      var kind := event[0];
      var pos := event[1];
      if kind == 1 {
        robotPos[pos] := pos;
      } else if kind == 2 && |event| >= 3 {
        storeTenges[pos] := event[2];
        storeExists[pos] := true;
      }
    }

    /** getRobotsActivos */
    method GetRobotsActivos() returns (result: seq<int>)
      requires Valid()
      ensures result == ActiveRobots(State())
    {
      ghost var s := State();
      ghost var flags := RobotFlags(s);
      result := [];
      var i := 0;
      while i < robotPos.Length
        invariant 0 <= i <= robotPos.Length
        invariant result == World.Indices(flags, i)
      {
        assert flags[i] == (robotPos[i] == i);
        if robotPos[i] == i {
          result := result + [i];
        }
        i := i + 1;
      }
      assert result == World.Indices(flags, |s.robotPos|);
    }

    /** getTiendasActivas; the final sort finds the list already in order. */
    method GetTiendasActivas() returns (result: seq<int>)
      requires Valid()
      ensures result == ActiveStores(State())
    {
      ghost var s := State();
      ghost var flags := StoreFlags(s);
      result := [];
      var i := 0;
      while i < storeTenges.Length
        invariant 0 <= i <= storeTenges.Length
        invariant result == World.Indices(flags, i)
      {
        assert flags[i] == (storeExists[i] && storeTenges[i] > 0);
        if storeExists[i] && storeTenges[i] > 0 {
          result := result + [i];
        }
        i := i + 1;
      }
      assert result == World.Indices(flags, |s.robotPos|);
    }

    /** calculateOptimalProfit: adds the greedy pass's total, losses included, to the profit. */
    method CalculateOptimalProfit()
      requires Valid()
      modifies this
      ensures profit == old(profit) + OptimalProfit(State())
    {
      var tiendas := GetTiendasActivas();
      var robots := GetRobotsActivos();
      if |tiendas| == 0 || |robots| == 0 {
        return;
      }
      var ganancia := GreedyPass(robots, tiendas);
      profit := profit + ganancia;
    }

    /**
     * The loop of calculateOptimalProfit: each store in turn goes to the
     * robot with the best gain, which is counted even when it is a loss.
     */
    method GreedyPass(robots: seq<int>, tiendas: seq<int>) returns (total: int)
      requires |robots| > 0 && Greedy.SitesIn(tiendas, storeTenges[..])
      ensures total == Greedy.Total(robots, tiendas, storeTenges[..], true)
    {
      var robotActual := new int[|robots|](i requires 0 <= i < |robots| => robots[i]);
      assert robotActual[..] == robots;
      total := 0;
      var k := 0;
      while k < |tiendas|
        invariant 0 <= k <= |tiendas| && robotActual.Length == |robots|
        invariant total + Greedy.Total(robotActual[..], tiendas[k..], storeTenges[..], true)
                  == Greedy.Total(robots, tiendas, storeTenges[..], true)
      {
        var tienda := tiendas[k];
        var robotSeleccionado, mejorGanancia := Greedy.SelectRobot(robotActual, tienda, storeTenges[tienda]);
        assert tiendas[k..][1..] == tiendas[k + 1..];
        total := total + mejorGanancia;
        robotActual[robotSeleccionado] := tienda;
        k := k + 1;
      }
    }
  }

  /**
   * solve: loads every prefix into a fresh contest, keeps the running
   * maximum in the list of partial profits, then overwrites the entries after
   * the best prefix with the maximum, which they already hold.
   */
  method Solve(days: seq<seq<int>>) returns (resultado: array<int>)
    requires Loadable(days)
    ensures fresh(resultado) && resultado[..] == Solution(days)
  {
    if |days| < 2 {
      return new int[0];
    }
    var maxPos := Schedule.ComputeMaxPosition(days);
    var profitsParciales: seq<int> := [];
    var maxProfitGlobal := 0;
    var mejorLimite := 1;
    var numEvents := days[0][0];
    ghost var seen: seq<int> := [];
    var limite := 1;
    while limite <= numEvents
      invariant 1 <= limite <= Max(numEvents, 0) + 1 && numEvents == EventCount(days)
      invariant seen == Profits(days, limite - 1)
      invariant Tracks(seen, profitsParciales, maxProfitGlobal, mejorLimite)
    {
      var profitActual := PrefixContest(days, limite, maxPos);
      profitsParciales, maxProfitGlobal, mejorLimite :=
        Record(seen, profitsParciales, maxProfitGlobal, mejorLimite, limite, profitActual);
      seen := seen + [profitActual];
      limite := limite + 1;
    }
    profitsParciales := OverwriteAfterBest(seen, profitsParciales, maxProfitGlobal, mejorLimite);
    resultado := ToArray(profitsParciales);
  }

  /**
   * What solve's bookkeeping keeps after the profits `seen`: the list holds
   * their running maxima, the maximum is the last of them, and every entry
   * from index `mejorLimite` on already equals the maximum.
   */
  predicate Tracks(seen: seq<int>, profitsParciales: seq<int>, maxProfitGlobal: int, mejorLimite: int) {
    && profitsParciales == Maxima(seen)
    && maxProfitGlobal == RunningMax(seen, |seen|)
    && 1 <= mejorLimite
    && forall k :: mejorLimite <= k < |seen| ==> profitsParciales[k] == maxProfitGlobal
  }

  /**
   * The bookkeeping after the profit of prefix `limite`: a new maximum is
   * kept with its prefix; a smaller profit is listed as the maximum.
   */
  method Record(ghost seen: seq<int>, profitsParciales: seq<int>, maxProfitGlobal: int, mejorLimite: int,
                limite: int, profitActual: int)
    returns (parciales: seq<int>, maximo: int, mejor: int)
    requires limite == |seen| + 1 && Tracks(seen, profitsParciales, maxProfitGlobal, mejorLimite)
    ensures Tracks(seen + [profitActual], parciales, maximo, mejor)
  {
    MaximaExtends(seen, profitActual);
    parciales, maximo, mejor := profitsParciales + [profitActual], maxProfitGlobal, mejorLimite;
    if profitActual > maxProfitGlobal {
      maximo := profitActual;
      mejor := limite;
    } else if profitActual < maxProfitGlobal {
      parciales := parciales[|parciales| - 1 := maxProfitGlobal];
    }
  }

  /**
   * The loop after solve's main loop: every entry from index `mejorLimite`
   * on is set to the maximum, which it already holds, so the list is
   * returned unchanged.
   */
  method OverwriteAfterBest(ghost seen: seq<int>, profitsParciales: seq<int>, maxProfitGlobal: int, mejorLimite: int)
    returns (parciales: seq<int>)
    requires Tracks(seen, profitsParciales, maxProfitGlobal, mejorLimite)
    ensures parciales == profitsParciales
  {
    parciales := profitsParciales;
    var i := mejorLimite;
    while i < |parciales|
      invariant mejorLimite <= i && parciales == profitsParciales
    {
      parciales := parciales[i := maxProfitGlobal];
      i := i + 1;
    }
  }

  /** One round of solve's outer loop: a fresh contest loaded with the first `limite` events, then its profit. */
  method PrefixContest(days: seq<seq<int>>, limite: nat, maxPos: int) returns (profitActual: int)
    requires |days| >= 2 && Loadable(days) && 1 <= limite <= EventCount(days)
    requires maxPos == Schedule.MaxPosition(days)
    ensures profitActual == PrefixProfit(days, limite)
  {
    var contest := LoadPrefix(days, limite, maxPos);
    contest.CalculateOptimalProfit();
    profitActual := contest.profit;
  }

  /** The inner loop of solve: the events 1..limite (or to the end of the table) loaded into a fresh contest. */
  method LoadPrefix(days: seq<seq<int>>, limite: nat, maxPos: int) returns (contest: SilkRoadContest)
    requires |days| >= 2 && Loadable(days) && 1 <= limite <= EventCount(days)
    requires maxPos == Schedule.MaxPosition(days)
    ensures fresh(contest) && contest.Valid()
    ensures contest.State() == PrefixBoard(days, limite) && contest.profit == 0
  {
    contest := new SilkRoadContest(maxPos);
    Fits(days, Min(limite, |days| - 1));
    var i := 1;
    while i <= limite && i < |days|
      invariant 1 <= i <= |days| && i <= limite + 1
      invariant contest.Valid() && contest.robotPos.Length == maxPos + 1
      invariant contest.State() == LoadUpTo(Empty(maxPos), days, i - 1)
      invariant contest.profit == 0
    {
      contest.Load(days[i]);
      i := i + 1;
    }
    assert i - 1 == Min(limite, |days| - 1);
  }

  /** The copy of the list of partial profits into the returned array. */
  method ToArray(xs: seq<int>) returns (a: array<int>)
    ensures fresh(a) && a[..] == xs
  {
    a := new int[|xs|];
    var j := 0;
    while j < |xs|
      invariant 0 <= j <= |xs|
      invariant a[..j] == xs[..j]
    {
      a[j] := xs[j];
      j := j + 1;
    }
    assert a[..] == a[..j];
  }
}
