/**
  `HyprlandState` of src/input.rs: the lock sections of the movers, the worker and the
  flusher, as functions on values and as the methods that update the fields.
*/
module PointerStates {
  import opened Common

  datatype Position = Position(x: int, y: int)

  const LIMIT: real := 100000.0

  function Clamp(v: real): (r: real)
    ensures -LIMIT <= r <= LIMIT
  {
    if v < -LIMIT then -LIMIT else if v > LIMIT then LIMIT else v
  }

  /** Coordinates are kept as they are up to 100000 pixels from the origin and cut there. */
  lemma ClampExactly(v: real)
    ensures -100000.0 <= v <= 100000.0 ==> Clamp(v) == v
    ensures v < -100000.0 ==> Clamp(v) == -100000.0
    ensures v > 100000.0 ==> Clamp(v) == 100000.0
  {
  }

  /** `f64::round`: to the nearest integer, halves away from zero. */
  function Round(v: real): int {
    if v >= 0.0 then (v + 0.5).Floor else -((0.5 - v).Floor)
  }

  lemma RoundIsNearest(v: real)
    ensures var r := Round(v) as real;
            -0.5 <= r - v <= 0.5 && (r - v == 0.5 ==> v > 0.0) && (r - v == -0.5 ==> v < 0.0)
  {
  }

  /** What a mover asks for: `pointer_move_absolute` or `pointer_move`. */
  datatype Motion = To(x: real, y: real) | By(dx: real, dy: real)

  /** The fields behind the lock. `failed` is `pointer_last_error`. */
  datatype Pointer = Pointer(cursor: Position, x: real, y: real, pending: Option<Position>,
                             inFlight: Option<Position>, busy: bool, failed: bool) {
    function Target(): Position {
      Position(Round(x), Round(y))
    }

    /** Where the cursor is or will be once everything queued has been dispatched. */
    function Latest(): Position {
      if pending.Some? then pending.value else if inFlight.Some? then inFlight.value else cursor
    }

    /** The new coordinates. */
    function At(m: Motion): Pointer {
      match m
      case To(x', y') => this.(x := Clamp(x'), y := Clamp(y'))
      case By(dx, dy) => this.(x := Clamp(x + dx), y := Clamp(y + dy))
    }

    /** A mover's lock section. */
    function Moved(m: Motion): Pointer {
      if failed then this.(failed := false)
      else if Latest() == At(m).Target() then At(m)
      else At(m).(pending := Some(At(m).Target()))
    }

    /** True if the move was queued, so the worker must be notified. */
    predicate Queues(m: Motion) {
      !failed && Latest() != At(m).Target()
    }

    function Taken(): Pointer {
      if pending.None? then this.(busy := false, inFlight := None)
      else this.(busy := true, inFlight := pending, pending := None)
    }

    function Completed(target: Position, ok: bool): Pointer {
      this.(cursor := if ok then target else cursor, failed := !ok, busy := false, inFlight := None)
    }

    predicate IsIdle() {
      pending.None? && !busy
    }
  }

  datatype MoveResult = Failed | Unchanged | Queued

  datatype Verdict = Error | Idle | Wait

  class HyprlandState {
    var cursor: Position
    var cursorX: real
    var cursorY: real
    var pendingCursor: Option<Position>
    var inFlightCursor: Option<Position>
    var pointerInFlight: bool
    var pointerLastError: Option<string>

    function View(): Pointer
      reads this
    {
      Pointer(cursor, cursorX, cursorY, pendingCursor, inFlightCursor, pointerInFlight, pointerLastError.Some?)
    }

    constructor (at: Position)
      ensures View() == Pointer(at, at.x as real, at.y as real, None, None, false, false)
    {
      cursor, cursorX, cursorY := at, at.x as real, at.y as real;
      pendingCursor, inFlightCursor, pointerInFlight, pointerLastError := None, None, false, None;
    }

    method PointerMove(dx: real, dy: real) returns (r: MoveResult)
      modifies this
      ensures View() == old(View()).Moved(By(dx, dy))
      ensures r.Failed? <==> old(pointerLastError).Some?
      ensures r.Queued? <==> old(View()).Queues(By(dx, dy))
    {
      if pointerLastError.Some? {
        pointerLastError := None;
        return Failed;
      }
      cursorX := Clamp(cursorX + dx);
      cursorY := Clamp(cursorY + dy);
      var target := Position(Round(cursorX), Round(cursorY));
      var latest := if pendingCursor.Some? then pendingCursor.value
                    else if inFlightCursor.Some? then inFlightCursor.value else cursor;
      if latest == target {
        return Unchanged;
      }
      pendingCursor := Some(target);
      return Queued;
    }

    method PointerMoveAbsolute(x: real, y: real) returns (r: MoveResult)
      modifies this
      ensures View() == old(View()).Moved(To(x, y))
      ensures r.Failed? <==> old(pointerLastError).Some?
      ensures r.Queued? <==> old(View()).Queues(To(x, y))
    {
      if pointerLastError.Some? {
        pointerLastError := None;
        return Failed;
      }
      cursorX := Clamp(x);
      cursorY := Clamp(y);
      var target := Position(Round(cursorX), Round(cursorY));
      var latest := if pendingCursor.Some? then pendingCursor.value
                    else if inFlightCursor.Some? then inFlightCursor.value else cursor;
      if latest == target {
        return Unchanged;
      }
      pendingCursor := Some(target);
      return Queued;
    }

    /** The worker's first lock section: what to dispatch, if anything. */
    method Take() returns (target: Option<Position>)
      modifies this
      ensures View() == old(View()).Taken() && target == old(pendingCursor)
    {
      target := pendingCursor;
      pendingCursor := None;
      if target.None? {
        pointerInFlight, inFlightCursor := false, None;
      } else {
        pointerInFlight, inFlightCursor := true, target;
      }
    }

    /** The worker's second lock section, after the compositor answered. */
    method Complete(target: Position, error: Option<string>) returns (more: bool)
      modifies this
      ensures View() == old(View()).Completed(target, error.None?) && more == old(pendingCursor).Some?
    {
      if error.None? {
        cursor := target;
      }
      pointerLastError := error;
      pointerInFlight, inFlightCursor := false, None;
      more := pendingCursor.Some?;
    }

    /** One look of `flush_pointer`. */
    method Check() returns (verdict: Verdict)
      modifies this
      ensures verdict == if old(View()).failed then Error else if old(View()).IsIdle() then Idle else Wait
      ensures View() == old(View()).(failed := false)
    {
      if pointerLastError.Some? {
        pointerLastError := None;
        return Error;
      }
      return if pendingCursor.None? && !pointerInFlight then Idle else Wait;
    }
  }
}
