/**
 * The five timed physics variants. Each is reset with a command, anchors its start time on
 * the first update after the reset, and after a fixed duration reports a completion command.
 * Times are integer milliseconds; positions are integer pixels.
 */
module Physics {
  import opened Wrappers
  import Board
  import opened Commands

  datatype Kind = Idle | Move | Jump | ShortRest | LongRest

  /** Hold time after the motion of a move. */
  const ExtraDelayMs: int := 300
  const JumpMs: int := 1000
  const ShortRestMs: int := 500
  const LongRestMs: int := 1500

  /**
   * Motion time in milliseconds for a speed and two end positions: the source computes
   * `int(distance / speed * 1000)` in floating point, which the model takes as given.
   */
  type Travel = (real, Board.Pos, Board.Pos) -> int

  /** Move-only data: end points and durations of the current move. */
  datatype Motion = Motion(startPos: Board.Pos, endPos: Board.Pos, durationMs: int, totalDurationMs: int)

  /**
   * One physics object. `anchored` is false exactly where the source's `start_time` is `None`;
   * `cmd` is the command of the last reset.
   */
  datatype Timer = Timer(
    kind: Kind,
    startCell: Board.Cell,
    pos: Board.Pos,
    speed: real,
    startTime: int,
    anchored: bool,
    cmd: Option<Command>,
    finished: bool,
    motion: Motion)
  {
    /** Idle physics, or physics that has been reset at least once. */
    predicate Armed() {
      kind == Idle || cmd.Some?
    }

    /** A move always lasts at least one millisecond of motion followed by the hold time. */
    predicate Sound() {
      kind == Move ==> motion.durationMs >= 1 && motion.totalDurationMs == motion.durationMs + ExtraDelayMs
    }
  }

  /** The constructor: placed on `cell`, start time 0, no command, speed scaled by 100. */
  function New(kind: Kind, cell: Board.Cell, speedMPerSec: real, b: Board.Board): (t: Timer)
    ensures t.kind == kind && t.Sound() && !t.finished && t.cmd.None?
    ensures t.pos == Board.CellToWorld(b, cell) && t.startCell == cell
    ensures t.speed == speedMPerSec * 100.0 && t.anchored && t.startTime == 0
  {
    var p := Board.CellToWorld(b, cell);
    Timer(kind, cell, p, speedMPerSec * 100.0, 0, true, None, false, Motion(p, p, 1, 1 + ExtraDelayMs))
  }

  /** What a reset reads from its command without raising. */
  predicate Fits(kind: Kind, cmd: Command) {
    match kind
    case Move => cmd.src.Square? && cmd.dst.Square?
                 && Board.IsSquareName(cmd.src.name) && Board.IsSquareName(cmd.dst.name)
    case Jump => true
    case _ => cmd.src.Coords?
  }

  function Max(a: int, b: int): int {
    if a < b then b else a
  }

  /** `reset(cmd)` of each variant. */
  function Reset(t: Timer, cmd: Command, b: Board.Board, travel: Travel): (r: Timer)
    requires Fits(t.kind, cmd)
    ensures r.kind == t.kind && r.speed == t.speed && r.cmd == Some(cmd)
    ensures r.Armed() && (t.Sound() ==> r.Sound())
    ensures t.kind == Idle ==> r.anchored && r.startTime == 0
    ensures t.kind != Idle ==> !r.anchored
    ensures t.kind != Move ==> r.finished == t.finished && r.motion == t.motion
    ensures t.kind == Move ==> !r.finished && r.pos == r.motion.startPos && r.motion.durationMs >= 1
    ensures t.kind == Move ==>
              && r.startCell == Board.AlgebraicToCell(cmd.src.name).value
              && r.motion.startPos == Board.CellToWorld(b, r.startCell)
              && r.motion.endPos == Board.CellToWorld(b, Board.AlgebraicToCell(cmd.dst.name).value)
    ensures t.kind in {Idle, ShortRest, LongRest} ==>
              r.startCell == cmd.src.cell && r.pos == Board.CellToWorld(b, cmd.src.cell)
    ensures t.kind == Jump ==> r.startCell == t.startCell && r.pos == t.pos
  {
    match t.kind
    case Idle =>
      t.(cmd := Some(cmd), startTime := 0, anchored := true, startCell := cmd.src.cell,
         pos := Board.CellToWorld(b, cmd.src.cell))
    case Move =>
      var from := Board.AlgebraicToCell(cmd.src.name).value;
      var to := Board.AlgebraicToCell(cmd.dst.name).value;
      var p0 := Board.CellToWorld(b, from);
      var p1 := Board.CellToWorld(b, to);
      var d := Max(1, travel(t.speed, p0, p1));
      t.(cmd := Some(cmd), finished := false, startCell := from, pos := p0,
         motion := Motion(p0, p1, d, d + ExtraDelayMs), startTime := 0, anchored := false)
    case Jump =>
      t.(cmd := Some(cmd), startTime := 0, anchored := false)
    case _ =>
      t.(cmd := Some(cmd), startTime := 0, anchored := false, startCell := cmd.src.cell,
         pos := Board.CellToWorld(b, cmd.src.cell))
  }

  /** Sets the start time to `now` unless it is already set. */
  function Anchor(t: Timer, now: int): (r: Timer)
    ensures r.anchored
  {
    if t.anchored then t else t.(startTime := now, anchored := true)
  }

  /** The integer pixel `elapsed / duration` of the way from `a` to `b`, rounded down. */
  function Lerp(a: int, b: int, elapsed: int, duration: int): int
    requires duration > 0
  {
    a + ((b - a) * elapsed) / duration
  }

  /** Between start and end of the motion, the interpolated coordinate lies between its end points. */
  lemma LerpBounds(a: int, b: int, elapsed: int, duration: int)
    requires 0 <= elapsed < duration
    ensures elapsed == 0 ==> Lerp(a, b, elapsed, duration) == a
    ensures a <= b ==> a <= Lerp(a, b, elapsed, duration) <= b
    ensures b <= a ==> b <= Lerp(a, b, elapsed, duration) <= a
  {
    var x := (b - a) * elapsed;
    if a <= b {
      MulBelow(b - a, elapsed, duration);
      DivBelow(x, b - a, duration);
    } else {
      MulBelow(a - b, elapsed, duration);
      assert (a - b) * elapsed == -x;
      DivAbove(x, b - a, duration);
    }
  }

  lemma MulBelow(k: int, e: int, d: int)
    requires k >= 0 && 0 <= e <= d
    ensures 0 <= k * e <= k * d
  {
  }

  lemma DivBelow(x: int, k: int, d: int)
    requires d > 0 && 0 <= x <= k * d
    ensures 0 <= x / d <= k
  {
    if k < x / d {
      Board.MulMono(k + 1, x / d, d);
      assert false;
    }
  }

  lemma DivAbove(x: int, k: int, d: int)
    requires d > 0 && k * d <= x <= 0
    ensures k <= x / d <= 0
  {
    if x / d < k {
      Board.MulMono(x / d + 1, k, d);
      assert false;
    }
  }

  /** The position a move reaches `elapsed` milliseconds into its motion. */
  function MotionPos(m: Motion, elapsed: int): Board.Pos
    requires m.durationMs > 0
  {
    Board.Pos(Lerp(m.startPos.x, m.endPos.x, elapsed, m.durationMs),
              Lerp(m.startPos.y, m.endPos.y, elapsed, m.durationMs))
  }

  /** Milliseconds since the (possibly just anchored) start time. */
  function Elapsed(t: Timer, now: int): int {
    now - Anchor(t, now).startTime
  }

  /**
   * An update that does not raise. Jump and rest durations are set only by a reset, so
   * before its first reset such physics raises on every update; a move starts with a
   * one-millisecond motion but no total duration, so before its first reset it raises once
   * that millisecond has passed.
   */
  predicate Updatable(t: Timer, now: int) {
    t.Armed() || (t.kind == Move && Elapsed(t, now) < t.motion.durationMs)
  }

  /**
   * Freshly constructed physics has start time 0 and no command: idle physics can be updated
   * at any time, a move only before its first millisecond, the other variants never.
   */
  lemma NewUpdatable(kind: Kind, cell: Board.Cell, speedMPerSec: real, b: Board.Board, now: int)
    ensures Updatable(New(kind, cell, speedMPerSec, b), now) <==> kind == Idle || (kind == Move && now < 1)
  {
  }

  /** `update(now)`: the new physics and the completion command, if any. */
  function Update(t: Timer, now: int): (r: (Timer, Option<Command>))
    requires Updatable(t, now) && t.Sound()
    ensures r.0.kind == t.kind && r.0.cmd == t.cmd && r.0.speed == t.speed && r.0.Sound()
    ensures r.0.startCell == t.startCell && r.0.motion == t.motion
    ensures r.0.finished <==> t.finished || (t.kind == Move && r.1.Some?)
    ensures t.kind == Idle ==> r == (t, None)
    ensures t.kind == Move && t.finished ==> r == (t, t.cmd)
    ensures t.kind != Idle && !(t.kind == Move && t.finished) ==>
              r.0.anchored && r.0.startTime == (if t.anchored then t.startTime else now)
    ensures t.kind == Move && !t.finished ==>
              (r.1.Some? <==> Elapsed(t, now) >= t.motion.totalDurationMs) && (r.1.Some? ==> r.1 == t.cmd)
    ensures t.kind == Jump ==> r.1 == (if Elapsed(t, now) >= JumpMs then t.cmd else None)
    ensures t.kind == ShortRest ==> r.1 == (if Elapsed(t, now) >= ShortRestMs then t.cmd else None)
    ensures t.kind == LongRest ==>
              r.1 == if Elapsed(t, now) >= LongRestMs
                     then Some(Command(now, t.cmd.value.pieceId, IdleName, Coords(t.startCell), Coords(t.startCell)))
                     else None
    ensures t.kind != Move || r.1.Some? ==> r.0.pos == t.pos
  {
    match t.kind
    case Idle => (t, None)
    case Move =>
      if t.finished then (t, t.cmd)
      else
        var a := Anchor(t, now);
        var elapsed := now - a.startTime;
        if elapsed < a.motion.durationMs then (a.(pos := MotionPos(a.motion, elapsed)), None)
        else if elapsed < a.motion.totalDurationMs then (a.(pos := a.motion.endPos), None)
        else (a.(finished := true), a.cmd)
    case Jump =>
      var a := Anchor(t, now);
      (a, if now - a.startTime >= JumpMs then a.cmd else None)
    case ShortRest =>
      var a := Anchor(t, now);
      (a, if now - a.startTime >= ShortRestMs then a.cmd else None)
    case LongRest =>
      var a := Anchor(t, now);
      if now - a.startTime >= LongRestMs then
        (a, Some(Command(now, a.cmd.value.pieceId, IdleName, Coords(a.startCell), Coords(a.startCell))))
      else (a, None)
  }

  /**
   * The start time is anchored by the first update after a reset, not by the reset: that
   * update sees zero elapsed time, so no timed variant completes on it.
   */
  lemma FirstUpdateAnchors(t: Timer, cmd: Command, b: Board.Board, travel: Travel, now: int)
    requires t.kind != Idle && Fits(t.kind, cmd) && t.Sound()
    ensures !Reset(t, cmd, b, travel).anchored
    ensures Update(Reset(t, cmd, b, travel), now).0.startTime == now
    ensures Update(Reset(t, cmd, b, travel), now).1.None?
  {
  }

  /** Halfway through its motion a move's position lies on the rectangle spanned by its end points. */
  lemma MotionStaysBetween(t: Timer, now: int)
    requires t.kind == Move && t.Sound() && !t.finished
    requires 0 <= Elapsed(t, now) < t.motion.durationMs
    ensures var p := Update(t, now).0.pos;
            var s := t.motion.startPos;
            var e := t.motion.endPos;
            && (s.x <= e.x ==> s.x <= p.x <= e.x) && (e.x <= s.x ==> e.x <= p.x <= s.x)
            && (s.y <= e.y ==> s.y <= p.y <= e.y) && (e.y <= s.y ==> e.y <= p.y <= s.y)
  {
    var e := Elapsed(t, now);
    LerpBounds(t.motion.startPos.x, t.motion.endPos.x, e, t.motion.durationMs);
    LerpBounds(t.motion.startPos.y, t.motion.endPos.y, e, t.motion.durationMs);
  }

  /** A reset move starts at its first square: the first update leaves it there. */
  lemma MoveStartsAtSource(t: Timer, cmd: Command, b: Board.Board, travel: Travel, now: int)
    requires t.kind == Move && Fits(Move, cmd)
    ensures Update(Reset(t, cmd, b, travel), now).0.pos
            == Board.CellToWorld(b, Board.AlgebraicToCell(cmd.src.name).value)
  {
    var r := Reset(t, cmd, b, travel);
    LerpBounds(r.motion.startPos.x, r.motion.endPos.x, 0, r.motion.durationMs);
    LerpBounds(r.motion.startPos.y, r.motion.endPos.y, 0, r.motion.durationMs);
  }

  /** After the motion and before the end of the hold time, a move sits on its end position. */
  lemma MoveHoldsAtEnd(t: Timer, now: int)
    requires t.kind == Move && t.Armed() && t.Sound() && !t.finished
    requires t.motion.durationMs <= Elapsed(t, now) < t.motion.totalDurationMs
    ensures Update(t, now).0.pos == t.motion.endPos
    ensures Update(t, now).1.None?
  {
  }

  /** Once a move has completed, every later update returns the same command again. */
  lemma MoveCompletionRepeats(t: Timer, now: int, later: int)
    requires t.kind == Move && t.Armed() && t.Sound()
    requires Update(t, now).1.Some?
    ensures Update(Update(t, now).0, later) == (Update(t, now).0, Update(t, now).1)
  {
  }

  /** `can_be_captured()` of each variant. */
  function CanBeCaptured(k: Kind): bool {
    k != Jump
  }

  /** `can_capture()` of each variant. */
  function CanCapture(k: Kind): bool {
    k == Idle || k == Move
  }

  /** Every variant able to capture can itself be captured; a jumping piece can do neither. */
  lemma CaptureFlags(k: Kind)
    ensures CanCapture(k) ==> CanBeCaptured(k)
    ensures k == Jump ==> !CanBeCaptured(k) && !CanCapture(k)
    ensures k in {ShortRest, LongRest} ==> CanBeCaptured(k) && !CanCapture(k)
  {
  }
}
