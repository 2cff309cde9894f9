/**
 * The robot variants and their capability hooks. RobotAbstracto supplies the
 * defaults; Robot and TenderRobot override collection and net gain, and
 * NeverbackRobot overrides every hook with its own direction-lock state.
 * A robot is a tag plus, for the neverback variant, that private state; each
 * hook dispatches on the tag.
 */
module Robots {
  import opened JavaLang
  import Neverback

  datatype RobotKind = Normal | Tender | Neverback(state: Neverback.NeverbackState)

  // ---- RobotAbstracto's defaults ----

  /** Default collection: everything that is available. */
  function DefaultCollect(available: int): (r: int)
    ensures r == available
  {
    available
  }

  /** Default net gain: collected minus distance; may be negative. */
  function DefaultNetGain(collected: int, distance: int): (r: int)
    ensures r + distance == collected
    ensures collected < distance ==> r < 0
  {
    collected - distance
  }

  /** Default movement check: every displacement is allowed, zero and negatives included. */
  function DefaultMovementAllowed(meters: int): (r: bool)
    ensures r
  {
    true
  }

  /** Default rejection message: none. */
  function DefaultRejectionMessage(): (m: string)
    ensures |m| == 0
  {
    ""
  }

  // ---- TenderRobot ----

  /** A tender robot takes half of what is available (Java int division). */
  function TenderCollect(available: int): (r: int)
    ensures available >= 0 ==> 0 <= r <= available && available - r >= r && r == available / 2
  {
    Div(available, 2)
  }

  // ---- dispatch ----

  /** crearRobot: the variant for a type name, matched case-insensitively. */
  function Create(kind: string): (r: Option<RobotKind>)
    ensures r.Some? <==> ToLower(kind) in {"normal", "neverback", "tender"}
    ensures r.Some? && r.value.Neverback? ==> r.value.state == Neverback.Fresh
  {
    var t := ToLower(kind);
    if t == "normal" then Some(Normal)
    else if t == "neverback" then Some(Neverback(Neverback.Fresh))
    else if t == "tender" then Some(Tender)
    else None
  }

  /** recolectarTenges */
  function Collect(k: RobotKind, available: int): (r: int)
    ensures !k.Tender? ==> r == available
    ensures available >= 0 ==> 0 <= r <= available
  {
    match k
    case Normal => available
    case Tender => TenderCollect(available)
    case Neverback(_) => Neverback.Collect(available)
  }

  /** calcularGanancia */
  function NetGain(k: RobotKind, collected: int, distance: int): (r: int)
    ensures r <= collected + Abs(distance) && r >= collected - Abs(distance)
    ensures distance >= 0 ==> r == collected - distance
  {
    match k
    case Normal => collected - distance
    case Tender => collected - distance
    case Neverback(_) => Neverback.NetGain(collected, distance)
  }

  /** isMovementAllowed, with the robot as it is afterwards. */
  function CheckMove(k: RobotKind, meters: int): (r: (bool, RobotKind))
    ensures !k.Neverback? ==> r == (true, k)
    ensures k.Neverback? ==> r.1.Neverback? && r.1.state.directionLocked == k.state.directionLocked
    ensures k.Neverback? && k.state.directionLocked == 0 ==> r == (true, k)
  {
    match k
    case Normal => (DefaultMovementAllowed(meters), k)
    case Tender => (DefaultMovementAllowed(meters), k)
    case Neverback(st) =>
      var (ok, st') := Neverback.Check(st, meters);
      (ok, Neverback(st'))
  }

  /** obtenerMensajeRechazo */
  function RejectionMessage(k: RobotKind): (m: string)
    ensures !k.Neverback? ==> m == ""
    ensures k.Neverback? ==> |m| > 0
  {
    match k
    case Neverback(st) => Neverback.RejectionMessage(st)
    case _ => DefaultRejectionMessage()
  }

  /** resetDirection: clears a neverback lock; a no-op for the other variants. */
  function ResetDirection(k: RobotKind): (r: RobotKind)
    ensures !k.Neverback? ==> r == k
    ensures k.Neverback? ==>
              r.Neverback? && r.state.directionLocked == 0 && r.state.lastAttemptedMeters == k.state.lastAttemptedMeters
  {
    match k
    case Neverback(st) => Neverback(Neverback.Reset(st))
    case _ => k
  }

  /** The type name is matched regardless of letter case. */
  lemma CreateIgnoresCase(kind: string)
    ensures Create(ToUpper(kind)) == Create(kind)
  {
    LowerIgnoresCase(kind);
  }

  /**
   * A tender robot at a normal-store balance of 100, ten cells away, collects
   * 50, leaves 50 and nets 40.
   */
  lemma TenderScenario()
    ensures Collect(Tender, 100) == 50
    ensures 100 - Collect(Tender, 100) == 50
    ensures NetGain(Tender, Collect(Tender, 100), 10) == 40
  {
  }
}
