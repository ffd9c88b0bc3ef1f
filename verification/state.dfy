/**
 * A piece's state machine: named states, each holding a physics object, an ordered table of
 * (event, target state) transitions, and the command of its last reset.
 */
module State {
  import opened Wrappers
  import Board
  import opened Commands
  import Physics
  import PhysicsFactory

  /** Event to target-state name, in insertion order (a Python dict). */
  type Transitions = seq<(string, string)>

  datatype PieceState = PieceState(physics: Physics.Timer, transitions: Transitions, currentCommand: Option<Command>)

  /** All states of one piece by name, and the name of the current one. */
  datatype Machine = Machine(states: map<string, PieceState>, current: string)

  function Keys(ts: Transitions): (ks: seq<string>)
    ensures |ks| == |ts| && forall i :: 0 <= i < |ts| ==> ks[i] == ts[i].0
  {
    seq(|ts|, i requires 0 <= i < |ts| => ts[i].0)
  }

  /** Every transition of `ts` leads to a name in `names`. */
  predicate TargetsIn(ts: Transitions, names: set<string>) {
    forall i :: 0 <= i < |ts| ==> ts[i].1 in names
  }

  predicate UniqueKeys(ts: Transitions) {
    forall i, j :: 0 <= i < j < |ts| ==> ts[i].0 != ts[j].0
  }

  /** Position of the first occurrence of `e`. */
  function IndexOf(ks: seq<string>, e: string): (r: Option<nat>)
    ensures r.None? <==> e !in ks
    ensures r.Some? ==> r.value < |ks| && ks[r.value] == e && forall j :: 0 <= j < r.value ==> ks[j] != e
  {
    if |ks| == 0 then None
    else if ks[0] == e then Some(0)
    else match IndexOf(ks[1..], e)
      case None => None
      case Some(i) => Some(i + 1)
  }

  /** Appending a key leaves the positions of the keys already present alone. */
  lemma IndexOfAppend(ks: seq<string>, x: string, e: string)
    ensures IndexOf(ks + [x], e) == if e in ks then IndexOf(ks, e) else if e == x then Some(|ks|) else None
  {
    var ks2 := ks + [x];
    if e in ks {
      var i := IndexOf(ks, e).value;
      assert ks2[i] == e;
      assert forall j :: 0 <= j < |ks| ==> ks2[j] == ks[j];
    } else if e == x {
      assert ks2[|ks|] == e;
      assert forall j :: 0 <= j < |ks| ==> ks2[j] == ks[j];
    } else {
      assert forall j :: 0 <= j < |ks2| ==> ks2[j] == (if j < |ks| then ks[j] else x);
      assert e !in ks2;
    }
  }

  /** `transitions.get(event)`. */
  function Lookup(ts: Transitions, event: string): (r: Option<string>)
    ensures r.Some? <==> event in Keys(ts)
    ensures r.Some? ==> exists i :: 0 <= i < |ts| && ts[i] == (event, r.value)
  {
    match IndexOf(Keys(ts), event)
    case None => None
    case Some(i) => Some(ts[i].1)
  }

  /** `set_transition(event, target)`: overwrite in place, or append a new key at the end. */
  function SetTransition(ts: Transitions, event: string, target: string): (r: Transitions)
    ensures event in Keys(ts) ==> Keys(r) == Keys(ts)
    ensures event !in Keys(ts) ==> Keys(r) == Keys(ts) + [event]
  {
    match IndexOf(Keys(ts), event)
    case None => ts + [(event, target)]
    case Some(i) => ts[i := (event, target)]
  }

  /** After `set_transition` the event leads to the new target and every other event is unchanged. */
  lemma SetTransitionLookup(ts: Transitions, event: string, target: string, e: string)
    ensures Lookup(SetTransition(ts, event, target), event) == Some(target)
    ensures e != event ==> Lookup(SetTransition(ts, event, target), e) == Lookup(ts, e)
  {
    var r := SetTransition(ts, event, target);
    if event !in Keys(ts) {
      IndexOfAppend(Keys(ts), event, event);
      IndexOfAppend(Keys(ts), event, e);
    }
  }

  /** Targets stay within a set of names that holds the new target. */
  lemma SetTransitionTargets(ts: Transitions, event: string, target: string, names: set<string>)
    requires TargetsIn(ts, names) && target in names
    ensures TargetsIn(SetTransition(ts, event, target), names)
  {
  }

  /** Keys stay unique under `set_transition`. */
  lemma SetTransitionKeepsUnique(ts: Transitions, event: string, target: string)
    requires UniqueKeys(ts)
    ensures UniqueKeys(SetTransition(ts, event, target))
  {
    var r := SetTransition(ts, event, target);
    var ks := Keys(r);
    forall i, j | 0 <= i < j < |r|
      ensures r[i].0 != r[j].0
    {
      assert ks[i] == r[i].0 && ks[j] == r[j].0;
      if event in Keys(ts) {
        assert Keys(ts)[i] == ts[i].0 && Keys(ts)[j] == ts[j].0;
      } else {
        if j < |ts| {
          assert Keys(ts)[i] == ts[i].0 && Keys(ts)[j] == ts[j].0;
        } else {
          assert ks[j] == event;
          assert ks[i] == Keys(ts)[i];
        }
      }
    }
  }

  /** `State.reset(cmd)`: remembers the command and resets the physics with it. */
  function ResetState(s: PieceState, cmd: Command, b: Board.Board, travel: Physics.Travel): PieceState
    requires Physics.Fits(s.physics.kind, cmd)
  {
    s.(currentCommand := Some(cmd), physics := Physics.Reset(s.physics, cmd, b, travel))
  }

  /** Every transition leads to a state of the machine, and the current state exists. */
  predicate Linked(m: Machine) {
    && m.current in m.states
    && forall n :: n in m.states ==> TargetsIn(m.states[n].transitions, m.states.Keys)
  }

  function Cur(m: Machine): PieceState
    requires m.current in m.states
  {
    m.states[m.current]
  }

  /** The state an event leads to from the current state. */
  function Target(m: Machine, event: string): (r: Option<string>)
    requires Linked(m)
    ensures r.Some? ==> r.value in m.states
  {
    Lookup(Cur(m).transitions, event)
  }

  /** The reset that `process_command` would perform does not raise. */
  predicate FitsTarget(m: Machine, cmd: Command)
    requires Linked(m)
  {
    match Target(m, cmd.kind)
    case None => true
    case Some(n) => Physics.Fits(m.states[n].physics.kind, cmd)
  }

  /** `process_command(cmd)`: unknown events are ignored, otherwise the target is reset and becomes current. */
  function ProcessCommand(m: Machine, cmd: Command, b: Board.Board, travel: Physics.Travel): (r: Machine)
    requires Linked(m) && FitsTarget(m, cmd)
    ensures Linked(r) && r.states.Keys == m.states.Keys
    ensures Target(m, cmd.kind).None? ==> r == m
    ensures Target(m, cmd.kind).Some? ==>
              && r.current == Target(m, cmd.kind).value
              && Cur(r) == ResetState(m.states[r.current], cmd, b, travel)
              && GetCommand(r) == Some(cmd)
    ensures forall n :: n in m.states && Some(n) != Target(m, cmd.kind) ==> r.states[n] == m.states[n]
  {
    match Target(m, cmd.kind)
    case None => m
    case Some(n) => Machine(m.states[n := ResetState(m.states[n], cmd, b, travel)], n)
  }

  /** `get_command()` of the current state. */
  function GetCommand(m: Machine): Option<Command>
    requires m.current in m.states
  {
    Cur(m).currentCommand
  }

  /** The machine after the current physics has been updated, and what that update reported. */
  function Step(m: Machine, now: int): (r: (Machine, Option<Command>))
    requires m.current in m.states && Physics.Updatable(Cur(m).physics, now) && Cur(m).physics.Sound()
    ensures r.0.current == m.current && r.0.states.Keys == m.states.Keys
    ensures Cur(r.0).transitions == Cur(m).transitions && Cur(r.0).currentCommand == Cur(m).currentCommand
    ensures forall n :: n in m.states && n != m.current ==> r.0.states[n] == m.states[n]
    ensures (Cur(r.0).physics, r.1) == Physics.Update(Cur(m).physics, now)
  {
    var (p, out) := Physics.Update(Cur(m).physics, now);
    (m.(states := m.states[m.current := Cur(m).(physics := p)]), out)
  }

  /** The completion command the current physics reports at `now`, if any, can be routed. */
  predicate CompletionFits(m: Machine, now: int)
    requires Linked(m) && Physics.Updatable(Cur(m).physics, now) && Cur(m).physics.Sound()
  {
    var out := Physics.Update(Cur(m).physics, now).1;
    out.Some? ==> FitsTarget(m, out.value)
  }

  /** `update(now)`: update the physics and route a completion command through `process_command`. */
  function Update(m: Machine, now: int, b: Board.Board, travel: Physics.Travel): (r: Machine)
    requires Linked(m) && Physics.Updatable(Cur(m).physics, now) && Cur(m).physics.Sound()
    requires CompletionFits(m, now)
    ensures Linked(r) && r.states.Keys == m.states.Keys
    ensures Step(m, now).1.None? ==> r == Step(m, now).0
    ensures Step(m, now).1.Some? ==> r == ProcessCommand(Step(m, now).0, Step(m, now).1.value, b, travel)
  {
    var (m1, out) := Step(m, now);
    assert Cur(m1).transitions == Cur(m).transitions;
    if out.None? then m1 else ProcessCommand(m1, out.value, b, travel)
  }

  /** `can_transition(now)`: whether the physics reports a command. The probe updates the physics. */
  function CanTransition(m: Machine, now: int): (bool, Machine)
    requires m.current in m.states && Physics.Updatable(Cur(m).physics, now) && Cur(m).physics.Sound()
  {
    var s := Step(m, now);
    (s.1.Some?, s.0)
  }

  /**
   * A probe that finds nothing has the same effect as an update; a probe that finds a command
   * leaves the machine one `process_command` short of it.
   */
  lemma CanTransitionAgreesWithUpdate(m: Machine, now: int, b: Board.Board, travel: Physics.Travel)
    requires Linked(m) && Physics.Updatable(Cur(m).physics, now) && Cur(m).physics.Sound()
    requires CompletionFits(m, now)
    ensures !CanTransition(m, now).0 ==> Update(m, now, b, travel) == CanTransition(m, now).1
    ensures CanTransition(m, now).0 ==>
              Update(m, now, b, travel)
              == ProcessCommand(CanTransition(m, now).1, Physics.Update(Cur(m).physics, now).1.value, b, travel)
  {
  }

  // ---------------------------------------------------------------------------------------
  // The machine every piece is built with, and the invariant its reachable states keep.

  const Names: set<string> := {IdleName, MoveName, JumpName, ShortRestName, LongRestName}

  /** The wired edges of each state, in insertion order. */
  function Edges(name: string): Transitions {
    if name == IdleName then [(MoveName, MoveName), (JumpName, JumpName)]
    else if name == MoveName then [(LongRestName, LongRestName)]
    else if name == JumpName then [(ShortRestName, ShortRestName)]
    else [(IdleName, IdleName)]
  }

  /** Exactly the five states, wired as the factory wires them, each running its own variant. */
  predicate Wired(m: Machine) {
    && m.states.Keys == Names
    && m.current in Names
    && forall n :: n in m.states ==>
         && m.states[n].transitions == Edges(n)
         && PhysicsFactory.KindOf(n) == Some(m.states[n].physics.kind)
         && m.states[n].physics.Sound()
  }

  /** What a state keeps true between resets and updates. */
  predicate Coherent(name: string, s: PieceState) {
    && (s.physics.finished ==> s.physics.kind == Physics.Move)
    && s.currentCommand == s.physics.cmd
    && (s.physics.cmd.Some? ==> s.physics.cmd.value.kind == name)
  }

  /** Every state is coherent and the current one has been reset, or is idle. */
  predicate Live(m: Machine) {
    && m.current in m.states
    && (forall n :: n in m.states ==> Coherent(n, m.states[n]))
    && Cur(m).physics.Armed()
  }

  /** Every wired state has at least one transition. */
  lemma WiredHasEdges(m: Machine)
    requires Wired(m)
    ensures |Cur(m).transitions| > 0
  {
    assert Cur(m).transitions == Edges(m.current);
  }

  lemma WiredIsLinked(m: Machine)
    requires Wired(m)
    ensures Linked(m)
  {
    forall n | n in m.states
      ensures TargetsIn(m.states[n].transitions, m.states.Keys)
    {
    }
  }

  /** In a wired machine every event is its own target state. */
  lemma WiredTarget(m: Machine, event: string)
    requires Wired(m)
    ensures Linked(m)
    ensures Target(m, event).Some? ==> Target(m, event).value == event
    ensures Target(m, event).Some? <==> event in Keys(Edges(m.current))
  {
    WiredIsLinked(m);
  }

  /**
   * In a wired, live machine every update can be performed and its completion command routed:
   * the only completion with a transition is a long rest's fresh idle command, on a cell.
   */
  lemma WiredUpdateFits(m: Machine, now: int)
    requires Wired(m) && Live(m)
    ensures Linked(m) && Physics.Updatable(Cur(m).physics, now) && Cur(m).physics.Sound()
    ensures CompletionFits(m, now)
  {
    WiredIsLinked(m);
    var out := Physics.Update(Cur(m).physics, now).1;
    if out.Some? {
      WiredTarget(m, out.value.kind);
    }
  }

  /** `process_command` keeps a wired, live machine wired and live when the target reset fits. */
  lemma ProcessCommandPreserves(m: Machine, cmd: Command, b: Board.Board, travel: Physics.Travel)
    requires Wired(m) && Live(m)
    requires Linked(m) && FitsTarget(m, cmd)
    ensures Wired(ProcessCommand(m, cmd, b, travel)) && Live(ProcessCommand(m, cmd, b, travel))
  {
    WiredTarget(m, cmd.kind);
    var r := ProcessCommand(m, cmd, b, travel);
    forall n | n in r.states
      ensures Coherent(n, r.states[n])
    {
      if Some(n) != Target(m, cmd.kind) {
        assert r.states[n] == m.states[n];
      }
    }
  }

  /** `update` keeps a wired, live machine wired and live. */
  lemma UpdatePreserves(m: Machine, now: int, b: Board.Board, travel: Physics.Travel)
    requires Wired(m) && Live(m)
    ensures Linked(m) && Physics.Updatable(Cur(m).physics, now) && Cur(m).physics.Sound()
    ensures CompletionFits(m, now)
    ensures Wired(Update(m, now, b, travel)) && Live(Update(m, now, b, travel))
  {
    WiredUpdateFits(m, now);
    var (m1, out) := Step(m, now);
    assert Wired(m1);
    assert Live(m1) by {
      forall n | n in m1.states
        ensures Coherent(n, m1.states[n])
      {
        if n != m.current {
          assert m1.states[n] == m.states[n];
        }
      }
    }
    if out.Some? {
      WiredIsLinked(m1);
      ProcessCommandPreserves(m1, out.value, b, travel);
    }
  }

  /**
   * Only a move's physics finishes, and the first transition of the move state is the long
   * rest: the follow-up command built from it moves a wired, live machine into the long rest.
   */
  lemma FinishedChainsToLongRest(m: Machine, cmd: Command, b: Board.Board, travel: Physics.Travel)
    requires Wired(m) && Live(m) && Cur(m).physics.finished
    requires |Cur(m).transitions| > 0 && cmd.kind == Keys(Cur(m).transitions)[0] && cmd.src.Coords?
    ensures m.current == MoveName && cmd.kind == LongRestName
    ensures Linked(m) && FitsTarget(m, cmd)
    ensures ProcessCommand(m, cmd, b, travel).current == LongRestName
    ensures Wired(ProcessCommand(m, cmd, b, travel)) && Live(ProcessCommand(m, cmd, b, travel))
  {
    assert Coherent(m.current, Cur(m));
    assert PhysicsFactory.KindOf(m.current) == Some(Physics.Move);
    WiredTarget(m, cmd.kind);
    ProcessCommandPreserves(m, cmd, b, travel);
  }
}
