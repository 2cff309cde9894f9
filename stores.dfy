/**
 * The store variants and their capability hooks. StoreAbstracto supplies the
 * defaults; Store passes everything through, FighterStore only admits richer
 * robots, CasinoStore rescales the payout with two random draws, and
 * AutonomousStore asks to be placed on a random free cell. A store object
 * holds no balance of its own: the balances live in the SilkRoad engine.
 */
module Stores {
  import opened JavaLang

  datatype StoreKind = Normal | Fighter | Casino | Autonomous

  /**
   * The two draws a casino makes per transfer: `luck` from nextInt(100), then
   * `extra` from nextInt(26) on bad luck or nextInt(51) on good luck.
   */
  datatype CasinoDraw = CasinoDraw(luck: int, extra: int)

  predicate ValidDraw(d: CasinoDraw) {
    0 <= d.luck < 100 && 0 <= d.extra < (if d.luck < 50 then 26 else 51)
  }

  /** Only draws that java.util.Random can produce. */
  type Draw = d: CasinoDraw | ValidDraw(d) witness CasinoDraw(0, 0)

  // ---- StoreAbstracto's defaults ----

  /** Default admission: every robot, whatever the balances. */
  function DefaultAccepts(robotTenges: int, storeTenges: int): (r: bool)
    ensures r
  {
    true
  }

  /** Default processing: the collected amount passes unchanged. */
  function DefaultProcess(collected: int): (r: int)
    ensures r == collected
  {
    collected
  }

  /** validarTransferencia: the requested amount is confirmed as is; no variant overrides it. */
  function ValidateTransfer(k: StoreKind, requested: int): (r: int)
    ensures r == requested
  {
    requested
  }

  /** transferirTenges on the store itself: the requested amount is handed over as is. */
  function TransferTenges(k: StoreKind, requested: int): (r: int)
    ensures r == requested
  {
    requested
  }

  /** getTengesActuales: store objects keep no balance, so this is always 0. */
  function CurrentTenges(k: StoreKind): (r: int)
    ensures r == 0
  {
    0
  }

  // ---- variants ----

  /** crearTienda: the variant for a type name, matched case-insensitively. */
  function Create(kind: string): (r: Option<StoreKind>)
    ensures r.Some? <==> ToLower(kind) in {"normal", "autonomous", "fighter", "casino"}
  {
    var t := ToLower(kind);
    if t == "normal" then Some(Normal)
    else if t == "autonomous" then Some(Autonomous)
    else if t == "fighter" then Some(Fighter)
    else if t == "casino" then Some(Casino)
    else None
  }

  /** puedeRecibirRobot: a fighter store admits only a robot strictly richer than itself. */
  function Accepts(k: StoreKind, robotTenges: int, storeTenges: int): (r: bool)
    ensures k.Fighter? ==> (r <==> robotTenges > storeTenges)
    ensures !k.Fighter? ==> r
  {
    match k
    case Fighter => robotTenges > storeTenges
    case _ => DefaultAccepts(robotTenges, storeTenges)
  }

  /** The percentage a casino pays for a draw. */
  function CasinoPercentage(d: Draw): (p: int)
    ensures d.luck < 50 ==> 50 <= p <= 75
    ensures d.luck >= 50 ==> 100 <= p <= 150
  {
    if d.luck < 50 then 50 + d.extra else 100 + d.extra
  }

  /** procesarTransferencia of CasinoStore: (collected * percentage) / 100 in Java int arithmetic. */
  function CasinoProcess(collected: int, d: Draw): (r: int)
    ensures collected >= 0 ==> collected * 50 / 100 <= r <= collected * 150 / 100
    ensures collected >= 0 && d.luck < 50 ==> r <= collected
    ensures collected >= 0 && d.luck >= 50 ==> r >= collected
    ensures collected == 0 ==> r == 0
  {
    var p := CasinoPercentage(d);
    CasinoBounds(collected, p);
    Div(collected * p, 100)
  }

  lemma CasinoBounds(collected: int, p: int)
    requires 50 <= p <= 150
    ensures collected >= 0 ==> collected * 50 / 100 <= collected * p / 100 <= collected * 150 / 100
    ensures collected >= 0 && p <= 75 ==> collected * p / 100 <= collected
    ensures collected >= 0 && p >= 100 ==> collected * p / 100 >= collected
  {
    if collected >= 0 {
      ScaledMonotone(collected, 50, p);
      ScaledMonotone(collected, p, 150);
      if p <= 75 {
        ScaledMonotone(collected, p, 100);
      }
      if p >= 100 {
        ScaledMonotone(collected, 100, p);
      }
      assert collected * 100 / 100 == collected;
    }
  }

  /** Scaling a non-negative amount by a larger percentage never pays less. */
  lemma ScaledMonotone(c: int, p: int, q: int)
    requires c >= 0 && 0 <= p <= q
    ensures c * p / 100 <= c * q / 100
  {
    MulMonotone(c, p, q);
    DivMonotone(c * p, c * q);
  }

  lemma MulMonotone(c: int, p: int, q: int)
    requires c >= 0 && p <= q
    ensures c * p <= c * q
  {
    assert c * q - c * p == c * (q - p);
  }

  lemma DivMonotone(x: int, y: int)
    requires 0 <= x <= y
    ensures x / 100 <= y / 100
  {
  }

  /** procesarTransferencia */
  function Process(k: StoreKind, collected: int, d: Draw): (r: int)
    ensures !k.Casino? ==> r == collected
    ensures k.Casino? && collected >= 0 ==> collected * 50 / 100 <= r <= collected * 150 / 100
  {
    match k
    case Casino => CasinoProcess(collected, d)
    case _ => DefaultProcess(collected)
  }

  const FighterLead: string := "¡Robot rechazado! La tienda tiene "
  const FighterMiddle: string := " tenges.\nTu robot solo tiene "
  const FighterTail: string := " tenges.\nNo tienes suficiente poder para acceder a esta tienda."

  /** The fighter's refusal, quoting the store's balance `st` and the robot's `rt`. */
  function FighterText(st: string, rt: string): (m: string)
    ensures |m| == |FighterLead| + |st| + |FighterMiddle| + |rt| + |FighterTail|
    ensures m[..|FighterLead|] == FighterLead
    ensures m[|FighterLead|..|FighterLead| + |st|] == st
    ensures m[|FighterLead| + |st| + |FighterMiddle|..][..|rt|] == rt
    ensures m[|FighterLead| + |st| + |FighterMiddle| + |rt|..] == FighterTail
  {
    var head := FighterLead + st + FighterMiddle;
    ConcatSlices(FighterLead, st, FighterMiddle + rt + FighterTail);
    ConcatSlices(head, rt, FighterTail);
    head + rt + FighterTail
  }

  /** obtenerMensajeRechazo: only a fighter store explains itself, quoting both balances. */
  function RejectionMessage(k: StoreKind, robotTenges: int, storeTenges: int): (m: string)
    ensures !k.Fighter? ==> m == ""
    ensures k.Fighter? ==>
              var st, rt := Decimal(storeTenges), Decimal(robotTenges);
              && |m| == |FighterLead| + |st| + |FighterMiddle| + |rt| + |FighterTail|
              && m[|FighterLead|..|FighterLead| + |st|] == st
              && m[|FighterLead| + |st| + |FighterMiddle|..][..|rt|] == rt
  {
    match k
    case Fighter => FighterText(Decimal(storeTenges), Decimal(robotTenges))
    case _ => ""
  }

  /** necesitaPosicionAleatoria: only an autonomous store picks its own cell. */
  function NeedsRandomPosition(k: StoreKind): (r: bool)
    ensures r <==> k.Autonomous?
  {
    match k
    case Autonomous => true
    case _ => false
  }

  /** The type name is matched regardless of letter case. */
  lemma CreateIgnoresCase(kind: string)
    ensures Create(ToUpper(kind)) == Create(kind)
  {
    LowerIgnoresCase(kind);
  }

  /** A fighter store turns away a robot exactly as rich as itself. */
  lemma FighterRejectsEqual(balance: int, d: Draw)
    ensures !Accepts(Fighter, balance, balance)
    ensures |RejectionMessage(Fighter, balance, balance)| > 0
  {
  }
}
