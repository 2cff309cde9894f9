/**
 * Road.transferirTenges: the mediator between a robot and a store that know
 * nothing of each other. The robot decides how much it takes from what is
 * available, and the store confirms that amount.
 */
module Mediator {
  import opened JavaLang
  import Robots
  import Stores

  function Transfer(robot: Robots.RobotKind, store: Stores.StoreKind, available: int): (r: int)
    ensures r == Robots.Collect(robot, available)
    ensures available >= 0 ==> 0 <= r <= available
    ensures !robot.Tender? ==> r == available
  {
    Stores.ValidateTransfer(store, Robots.Collect(robot, available))
  }

  /** A tender robot leaves at least as much as it takes; every other robot takes it all. */
  lemma TenderLeavesHalf(store: Stores.StoreKind, available: int)
    requires available >= 0
    ensures available - Transfer(Robots.Tender, store, available) >= Transfer(Robots.Tender, store, available)
    ensures Transfer(Robots.Tender, store, available) == available / 2
    ensures Transfer(Robots.Normal, store, available) == available
  {
  }
}
