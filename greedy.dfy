/**
 * The greedy assignment shared by SilkRoad (moveRobots and its estimate
 * calculateMaxProfitGreedy) and SilkRoadContest (calculateOptimalProfit).
 * Stores are visited in increasing position; each one is given to the robot
 * with the largest gain (store balance minus distance), the first such robot
 * on ties, and that robot then stands on the store for the later choices.
 * The engine counts only non-negative gains; the contest counts every gain.
 */
module Greedy {
  import opened JavaLang

  /** What a robot standing at `pos` nets by going to `site` with `balance` tenges. */
  function Gain(balance: int, site: int, pos: int): (g: int)
    ensures g <= balance
    ensures g == balance <==> pos == site
  {
    balance - Abs(site - pos)
  }

  /**
   * The robot the scan selects: the first index of a largest gain (a later
   * robot replaces the current choice only with a strictly larger gain).
   */
  function BestRobot(cur: seq<int>, site: int, balance: int): (i: nat)
    requires |cur| > 0
    ensures i < |cur|
    ensures forall j :: 0 <= j < |cur| ==> Gain(balance, site, cur[j]) <= Gain(balance, site, cur[i])
    ensures forall j :: 0 <= j < i ==> Gain(balance, site, cur[j]) < Gain(balance, site, cur[i])
    decreases |cur|
  {
    if |cur| == 1 then 0
    else
      var i := BestRobot(cur[..|cur| - 1], site, balance);
      if Gain(balance, site, cur[|cur| - 1]) > Gain(balance, site, cur[i]) then |cur| - 1 else i
  }

  predicate SitesIn(sites: seq<int>, tenges: seq<int>) {
    forall k :: 0 <= k < |sites| ==> 0 <= sites[k] < |tenges|
  }

  /**
   * One store of the pass: the gain counted and the robot positions
   * afterwards. A loss is skipped (robot stays) unless `keepLosses`.
   */
  function Assign(cur: seq<int>, site: int, balance: int, keepLosses: bool): (r: (int, seq<int>))
    requires |cur| > 0
    ensures |r.1| == |cur|
    ensures !keepLosses ==> r.0 >= 0
    ensures r.0 <= balance || (!keepLosses && r.0 == 0)
    ensures (r.0 == 0 && r.1 == cur) || r.1 == cur[BestRobot(cur, site, balance) := site]
  {
    var i := BestRobot(cur, site, balance);
    var g := Gain(balance, site, cur[i]);
    if keepLosses || g >= 0 then (g, cur[i := site]) else (0, cur)
  }

  /** The total a pass over `sites` counts, starting from robot positions `cur`. */
  function Total(cur: seq<int>, sites: seq<int>, tenges: seq<int>, keepLosses: bool): (t: int)
    requires |cur| > 0 && SitesIn(sites, tenges)
    ensures sites == [] ==> t == 0
    decreases |sites|
  {
    if sites == [] then 0
    else
      var r := Assign(cur, sites[0], tenges[sites[0]], keepLosses);
      r.0 + Total(r.1, sites[1..], tenges, keepLosses)
  }

  /** The sum of the balances of the visited stores. */
  function SiteSum(sites: seq<int>, tenges: seq<int>): int
    requires SitesIn(sites, tenges)
    decreases |sites|
  {
    if sites == [] then 0 else tenges[sites[0]] + SiteSum(sites[1..], tenges)
  }

  /** The engine's estimate never goes below zero: losses are skipped. */
  lemma {:induction false} SkippingLossesIsNonNegative(cur: seq<int>, sites: seq<int>, tenges: seq<int>)
    requires |cur| > 0 && SitesIn(sites, tenges)
    ensures Total(cur, sites, tenges, false) >= 0
    decreases |sites|
  {
    if sites != [] {
      var r := Assign(cur, sites[0], tenges[sites[0]], false);
      SkippingLossesIsNonNegative(r.1, sites[1..], tenges);
    }
  }

  /**
   * No pass earns more than the stores hold: a gain is at most the balance,
   * since distance is never negative.
   */
  lemma {:induction false} TotalAtMostBalances(cur: seq<int>, sites: seq<int>, tenges: seq<int>, keepLosses: bool)
    requires |cur| > 0 && SitesIn(sites, tenges)
    requires forall k :: 0 <= k < |sites| ==> tenges[sites[k]] >= 0
    ensures Total(cur, sites, tenges, keepLosses) <= SiteSum(sites, tenges)
    decreases |sites|
  {
    if sites != [] {
      var r := Assign(cur, sites[0], tenges[sites[0]], keepLosses);
      TotalAtMostBalances(r.1, sites[1..], tenges, keepLosses);
    }
  }

  /** Counting losses never beats skipping them. */
  lemma {:induction false} KeepingLossesNeverHelpsOneStore(cur: seq<int>, site: int, balance: int)
    requires |cur| > 0
    ensures Assign(cur, site, balance, true).0 <= Assign(cur, site, balance, false).0
  {
  }

  /** A robot already standing on the store takes it at zero distance, for its whole balance. */
  lemma RobotOnSiteTakesBalance(cur: seq<int>, site: int, balance: int, j: nat)
    requires j < |cur| && cur[j] == site
    ensures Gain(balance, site, cur[BestRobot(cur, site, balance)]) == balance
    ensures cur[BestRobot(cur, site, balance)] == site
  {
    var i := BestRobot(cur, site, balance);
    assert Gain(balance, site, cur[j]) == balance;
  }

  /**
   * One robot at 0 and a store of 5 tenges at 10: the contest counts the
   * loss of 5, the engine's estimate skips it.
   */
  lemma LossExample()
    ensures Total([0], [10], seq(11, k => if k == 10 then 5 else 0), true) == -5
    ensures Total([0], [10], seq(11, k => if k == 10 then 5 else 0), false) == 0
  {
    var t := seq(11, k => if k == 10 then 5 else 0);
    assert t[10] == 5;
    assert [10][1..] == [];
  }

  /**
   * The selection loop over the robot positions: a running best that only
   * strictly larger gains replace.
   */
  method SelectRobot(cur: array<int>, site: int, balance: int) returns (sel: int, best: int)
    requires cur.Length > 0
    ensures 0 <= sel < cur.Length
    ensures sel == BestRobot(cur[..], site, balance)
    ensures best == Gain(balance, site, cur[sel])
  {
    sel := -1;
    best := 0;
    var i := 0;
    while i < cur.Length
      invariant 0 <= i <= cur.Length
      invariant i == 0 ==> sel == -1
      invariant i > 0 ==> 0 <= sel < i && sel == BestRobot(cur[..i], site, balance)
      invariant i > 0 ==> best == Gain(balance, site, cur[sel])
    {
      var distance := Abs(site - cur[i]);
      var gain := balance - distance;
      assert cur[..i + 1][..i] == cur[..i];
      if sel == -1 || gain > best {
        best := gain;
        sel := i;
      }
      i := i + 1;
    }
    assert cur[..cur.Length] == cur[..];
  }
}
