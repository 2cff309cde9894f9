/**
 * NeverbackRobot: a robot whose direction can be locked to the sign of a
 * move. Its private state is the lock (0 = free, 1 = positive, -1 =
 * negative) and the last rejected displacement. The transitions are given as
 * pure functions on that state; the class below updates the two fields in
 * place and is proved against them.
 */
module Neverback {
  import opened JavaLang

  datatype NeverbackState = NeverbackState(directionLocked: int, lastAttemptedMeters: int)

  /** The state of a newly constructed robot. */
  const Fresh: NeverbackState := NeverbackState(0, 0)

  predicate LockInRange(st: NeverbackState) {
    -1 <= st.directionLocked <= 1
  }

  /**
   * isMovementAllowed: whether a displacement is permitted, and the state
   * afterwards (a rejected displacement is remembered).
   */
  function Check(st: NeverbackState, meters: int): (r: (bool, NeverbackState))
    ensures st.directionLocked == 0 ==> r.0
    ensures st.directionLocked == 1 ==> (r.0 <==> meters > 0)
    ensures st.directionLocked == -1 ==> (r.0 <==> meters < 0)
    ensures r.1.directionLocked == st.directionLocked
    ensures r.1.lastAttemptedMeters == if r.0 then st.lastAttemptedMeters else meters
  {
    if st.directionLocked == 0 then (true, st)
    else
      var allowed :=
        if st.directionLocked == 1 then meters > 0
        else if st.directionLocked == -1 then meters < 0
        else true;
      (allowed, if allowed then st else st.(lastAttemptedMeters := meters))
  }

  /** lockDirection: only a free robot is locked, to the sign of a nonzero move. */
  function Lock(st: NeverbackState, meters: int): (r: NeverbackState)
    ensures r.lastAttemptedMeters == st.lastAttemptedMeters
    ensures st.directionLocked != 0 ==> r == st
    ensures st.directionLocked == 0 ==> r.directionLocked == (if meters > 0 then 1 else if meters < 0 then -1 else 0)
  {
    if st.directionLocked == 0 then
      if meters > 0 then st.(directionLocked := 1)
      else if meters < 0 then st.(directionLocked := -1)
      else st
    else st
  }

  /** setDirectionLocked: only 1 and -1 are accepted; any other value is ignored. */
  function SetLock(st: NeverbackState, direction: int): (r: NeverbackState)
    ensures r.lastAttemptedMeters == st.lastAttemptedMeters
    ensures direction == 1 || direction == -1 ==> r.directionLocked == direction
    ensures direction != 1 && direction != -1 ==> r == st
  {
    if direction == 1 || direction == -1 then st.(directionLocked := direction) else st
  }

  /** resetDirection: the lock is cleared. */
  function Reset(st: NeverbackState): (r: NeverbackState)
    ensures r.directionLocked == 0
    ensures r.lastAttemptedMeters == st.lastAttemptedMeters
  {
    st.(directionLocked := 0)
  }

  /** recolectarTenges: a neverback robot takes everything that is available. */
  function Collect(available: int): (r: int)
    ensures r == available
  {
    available
  }

  /** calcularGanancia: collected minus the absolute distance travelled. */
  function NetGain(collected: int, distance: int): (r: int)
    ensures r <= collected
    ensures r + Abs(distance) == collected
  {
    collected - Abs(distance)
  }

  function DirectionName(st: NeverbackState): string {
    if st.directionLocked == 1 then "positiva" else "negativa"
  }

  const BlockedHeader: string := "¡Movimiento bloqueado!\n\nEste NeverbackRobot está bloqueado en dirección "
  const BlockedMiddle: string := ".\nSolo puede moverse con números "
  const BlockedAttempt: string := "s.\n\nIntento actual: "

  /** obtenerMensajeRechazo: names the locked direction and the rejected attempt. */
  function RejectionMessage(st: NeverbackState): (m: string)
    ensures var name, tail := DirectionName(st), Decimal(st.lastAttemptedMeters) + ")";
            && |m| > |BlockedHeader| + |name| + |tail|
            && m[..|BlockedHeader|] == BlockedHeader
            && m[|BlockedHeader|..|BlockedHeader| + |name|] == name
            && m[|m| - |tail|..] == tail
  {
    var name := DirectionName(st);
    var attempt := if st.lastAttemptedMeters > 0 then "positivo (" else "negativo (";
    var tail := Decimal(st.lastAttemptedMeters) + ")";
    var body := BlockedMiddle + name + BlockedAttempt + attempt;
    ConcatSlices(BlockedHeader, name, body + tail);
    ConcatSlices(BlockedHeader + name + body, tail, "");
    BlockedHeader + name + (body + tail)
  }

  /** The operations a caller can apply to a neverback robot. */
  datatype Op = CheckOp(meters: int) | LockOp(meters: int) | SetOp(direction: int) | ResetOp

  function Apply(st: NeverbackState, op: Op): NeverbackState {
    match op
    case CheckOp(m) => Check(st, m).1
    case LockOp(m) => Lock(st, m)
    case SetOp(d) => SetLock(st, d)
    case ResetOp => Reset(st)
  }

  function Run(st: NeverbackState, ops: seq<Op>): NeverbackState
    decreases |ops|
  {
    if ops == [] then st else Run(Apply(st, ops[0]), ops[1..])
  }

  /** Whatever operations are applied, the lock stays within {-1, 0, 1}. */
  lemma {:induction false} LockStaysInRange(st: NeverbackState, ops: seq<Op>)
    requires LockInRange(st)
    ensures LockInRange(Run(st, ops))
    decreases |ops|
  {
    if ops != [] {
      var next := Apply(st, ops[0]);
      assert LockInRange(next);
      LockStaysInRange(next, ops[1..]);
    }
  }

  /**
   * Never back: once locked by a nonzero move, further locking changes
   * nothing, and a move of the opposite sign (or no move) is rejected.
   */
  lemma LockedRejectsOtherDirection(st: NeverbackState, first: int, later: int)
    requires st.directionLocked == 0 && first != 0
    requires later == 0 || (later > 0) != (first > 0)
    ensures !Check(Lock(st, first), later).0
    ensures Lock(Lock(st, first), later) == Lock(st, first)
  {
  }

  /** A zero displacement is rejected whenever the robot is locked. */
  lemma ZeroRejectedWhenLocked(st: NeverbackState)
    requires st.directionLocked == 1 || st.directionLocked == -1
    ensures !Check(st, 0).0
    ensures Check(st, 0).1.lastAttemptedMeters == 0
  {
  }

  /** The robot as an object whose two private fields change in place. */
  class NeverbackRobot {
    var directionLocked: int
    var lastAttemptedMeters: int

    function State(): NeverbackState
      reads this
    {
      NeverbackState(directionLocked, lastAttemptedMeters)
    }

    constructor ()
      ensures State() == Fresh
    {
      directionLocked := 0;
      lastAttemptedMeters := 0;
    }

    function GetDirectionLocked(): (d: int)
      reads this
      ensures d == State().directionLocked
    {
      directionLocked
    }

    method SetDirectionLocked(direction: int)
      modifies this
      ensures State() == SetLock(old(State()), direction)
    {
      if direction == 1 || direction == -1 {
        directionLocked := direction;
      }
    }

    method IsMovementAllowed(meters: int) returns (allowed: bool)
      modifies this
      ensures (allowed, State()) == Check(old(State()), meters)
    {
      if directionLocked == 0 {
        return true;
      }
      if directionLocked == 1 {
        allowed := meters > 0;
      } else if directionLocked == -1 {
        allowed := meters < 0;
      } else {
        allowed := true;
      }
      if !allowed {
        lastAttemptedMeters := meters;
      }
    }

    method LockDirection(meters: int)
      modifies this
      ensures State() == Lock(old(State()), meters)
    {
      if directionLocked == 0 {
        if meters > 0 {
          directionLocked := 1;
        } else if meters < 0 {
          directionLocked := -1;
        }
      }
    }

    method ResetDirection()
      modifies this
      ensures State() == Reset(old(State()))
    {
      directionLocked := 0;
    }
  }
}
