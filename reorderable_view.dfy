/**
 * An item view of either grid: its frame, the grid position the last layout
 * pass gave it, and the `isReordering` gesture flag with the three gesture
 * handlers that drive it. The code of this class is the same in both
 * engines apart from the names of the delegate calls; here a handler returns
 * the delegate call it makes as a `ReorderEvent`.
 */
module Items {
  import opened Options
  import opened GridPositions
  import opened Layout

  /** The states a pan gesture recognizer reports. */
  datatype PanState = Possible | Began | Changed | Ended | Cancelled | Failed

  /** A gesture delivered to an item view. `Tap` is the recognizer bound to `doubleTapped`, which fires on a single tap. */
  datatype Gesture = LongPress | Tap | Pan(state: PanState)

  /** The delegate call a gesture handler makes, if any. */
  datatype ReorderEvent =
    | NoEvent
    | ReorderStarted   // didReorderStartedForView
    | Reordered        // didReorderedView (newer) / didReorderingView (older)
    | ReorderEnded     // didReorderEndForView (newer) / didReordererdView (older)

  datatype Response = Response(reordering: bool, event: ReorderEvent)

  /**
   * The two-state machine of the flag: the new flag and the notification for
   * gesture `g` received while the flag is `reordering`.
   */
  function Respond(reordering: bool, g: Gesture): (r: Response)
    // a start is reported exactly when reorder mode is entered
    ensures r.event == ReorderStarted <==> !reordering && r.reordering
    // only a pan reports moves and ends: Changed forwards, Ended ends
    ensures r.event == Reordered <==> g == Pan(Changed)
    ensures r.event == ReorderEnded <==> g == Pan(Ended)
    // a long press always leaves the view reordering, and is ignored while it is
    ensures g == LongPress ==> r.reordering
    ensures g == LongPress && reordering ==> r == Response(true, NoEvent)
    // a tap toggles, and leaving by a tap reports nothing
    ensures g == Tap ==> r.reordering == !reordering
    ensures g == Tap && reordering ==> r.event == NoEvent
    // a pan clears the flag when it ends and leaves it alone in every other state
    ensures g == Pan(Ended) ==> !r.reordering
    ensures g.Pan? && g.state != Ended ==> r.reordering == reordering
  {
    match g
    case LongPress =>
      if reordering then Response(true, NoEvent) else Response(true, ReorderStarted)
    case Tap =>
      var now := !reordering;
      Response(now, if now then ReorderStarted else NoEvent)
    case Pan(state) =>
      match state
      case Ended => Response(false, ReorderEnded)
      case Changed => Response(reordering, Reordered)
      case _ => Response(reordering, NoEvent)
  }

  /** Whatever the flag was, two long presses in a row report one start at most and leave the view reordering. */
  lemma LongPressReentry(reordering: bool)
    ensures Respond(Respond(reordering, LongPress).reordering, LongPress) == Response(true, NoEvent)
  {
  }

  class ReorderableView {
    const width: real
    const height: real
    var x: real
    var y: real
    var gridPosition: Option<GridPosition>
    var isReordering: bool

    /** `init(x:y:w:h:)`: an unplaced view, not reordering. */
    constructor (x: real, y: real, w: real, h: real)
      ensures this.x == x && this.y == y && width == w && height == h
      ensures gridPosition == None && !isReordering
    {
      this.x := x;
      this.y := y;
      width := w;
      height := h;
      gridPosition := None;
      isReordering := false;
    }

    function Frame(): Rect
      reads this
    {
      Rect(x, y, width, height)
    }

    function Bottom(): (r: real)
      reads this
      ensures height >= 0.0 ==> y <= r
    {
      y + height
    }

    /** `setPosition`: move the frame's origin (the animation is not modelled). */
    method SetPosition(p: Point)
      modifies this`x, this`y
      ensures x == p.x && y == p.y
    {
      x, y := p.x, p.y;
    }

    /** `center = p`: the dragged view follows the pointer. */
    method SetCenter(p: Point)
      modifies this`x, this`y
      ensures x == p.x - width / 2.0 && y == p.y - height / 2.0
      ensures Frame().Contains(p) <==> width > 0.0 && height > 0.0
    {
      x, y := p.x - width / 2.0, p.y - height / 2.0;
    }

    /** `longPressed`: ignored while reordering, else enter reorder mode and report the start. */
    method LongPressed() returns (e: ReorderEvent)
      modifies this
      ensures Response(isReordering, e) == Respond(old(isReordering), LongPress)
      ensures x == old(x) && y == old(y) && gridPosition == old(gridPosition)
    {
      if isReordering {
        return NoEvent;
      } else {
        isReordering := true;
      }
      e := ReorderStarted;
    }

    /** `doubleTapped`: toggle reorder mode, reporting only on entering it. */
    method DoubleTapped() returns (e: ReorderEvent)
      modifies this
      ensures Response(isReordering, e) == Respond(old(isReordering), Tap)
      ensures x == old(x) && y == old(y) && gridPosition == old(gridPosition)
    {
      isReordering := !isReordering;
      e := NoEvent;
      if isReordering {
        e := ReorderStarted;
      }
    }

    /** `pan`: Ended leaves reorder mode and reports the end, Changed reports a move, every other state is ignored. */
    method Panned(state: PanState) returns (e: ReorderEvent)
      modifies this
      ensures Response(isReordering, e) == Respond(old(isReordering), Pan(state))
      ensures x == old(x) && y == old(y) && gridPosition == old(gridPosition)
    {
      match state
      case Ended =>
        isReordering := false;
        e := ReorderEnded;
      case Changed =>
        e := Reordered;
      case _ =>
        return NoEvent;
    }
  }
}
