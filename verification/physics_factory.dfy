/** Creation of a physics object from a state name and a state configuration. */
module PhysicsFactory {
  import opened Wrappers
  import Board
  import Physics
  import opened Commands

  datatype FactoryError = UnknownState(name: string)

  /** A state configuration: section name to numeric settings. */
  type Config = map<string, map<string, real>>

  const DefaultSpeed: real := 1.0

  /** The physics variant that a state of the given name runs, if the name is one of the five. */
  function KindOf(name: string): (k: Option<Physics.Kind>)
    ensures k.Some? <==> name in {IdleName, MoveName, JumpName, ShortRestName, LongRestName}
  {
    if name == IdleName then Some(Physics.Idle)
    else if name == MoveName then Some(Physics.Move)
    else if name == JumpName then Some(Physics.Jump)
    else if name == ShortRestName then Some(Physics.ShortRest)
    else if name == LongRestName then Some(Physics.LongRest)
    else None
  }

  /** The state name of each variant. */
  function NameOf(k: Physics.Kind): string {
    match k
    case Idle => IdleName
    case Move => MoveName
    case Jump => JumpName
    case ShortRest => ShortRestName
    case LongRest => LongRestName
  }

  /** Names and variants correspond one to one. */
  lemma KindNameRoundTrip(k: Physics.Kind, name: string)
    ensures KindOf(NameOf(k)) == Some(k)
    ensures KindOf(name) == Some(k) ==> name == NameOf(k)
  {
  }

  /** `speed_m_per_sec` of the `physics` section, 1.0 when either is missing. */
  function Speed(cfg: Config): real
  {
    if "physics" in cfg && "speed_m_per_sec" in cfg["physics"] then cfg["physics"]["speed_m_per_sec"]
    else DefaultSpeed
  }

  /** `create(state_name, start_cell, cfg)`. */
  function Create(name: string, cell: Board.Cell, cfg: Config, b: Board.Board): (r: Result<Physics.Timer, FactoryError>)
    ensures r.Ok? <==> KindOf(name).Some?
    ensures r.Err? ==> r.error == UnknownState(name)
    ensures r.Ok? ==> NameOf(r.value.kind) == name
    ensures r.Ok? ==> r.value.speed == Speed(cfg) * 100.0 && r.value.Sound()
    ensures r.Ok? ==> r.value.startCell == cell && r.value.pos == Board.CellToWorld(b, cell)
    ensures r.Ok? ==> r.value.cmd.None? && !r.value.finished && r.value.anchored && r.value.startTime == 0
  {
    match KindOf(name)
    case None => Err(UnknownState(name))
    case Some(k) => Ok(Physics.New(k, cell, Speed(cfg), b))
  }
}
