/**
  The drawing surface: the strokes on screen (`mPaths`), the strokes taken
  back by undo (`mUndoPaths`), a redo list (`mRedoPaths`) and the stroke being
  drawn (`mDrawPath`), which records every touch sample with a pen state.

  `Board` is the state as a value and `Undo`, `Redo`, `Clear` and `Touch` say
  what each operation makes of it; the class `DrawingView` keeps the same state
  in fields and its methods are proved to perform exactly those steps.
 */
module Drawing {
  import opened Points

  datatype Option<T> = None | Some(value: T)

  /** A recorded sample `Triple<Float, Float, Int>`: position and pen state. */
  datatype Coordinate = Coordinate(x: real, y: real, status: int)

  /** Pen state of the first and the last sample of a stroke. */
  const PenEdge := 0
  /** Pen state of the samples in between. */
  const PenMoving := 1

  /** `CustomPath`: the paint settings of a stroke and its recorded samples. */
  datatype CustomPath = CustomPath(color: int, brushThickness: real, coordinates: seq<Coordinate>)

  datatype Action = ActionDown | ActionMove | ActionUp | ActionOther

  /** The part of a `MotionEvent` the view reads. */
  datatype MotionEvent = MotionEvent(action: Action, x: real, y: real)

  /** `Color.BLACK` as a signed 32-bit ARGB value. */
  const Black := -16777216
  /** The initial `mBrushSize`. */
  const DefaultBrushSize := 7.0

  datatype Board = Board(paths: seq<CustomPath>, undoPaths: seq<CustomPath>, redoPaths: seq<CustomPath>,
                         drawPath: CustomPath, color: int, brushSize: real)

  /** The state right after construction: nothing to undo or redo, and an
      empty current stroke in the view's colour and brush size. */
  function InitialBoard(): (b: Board)
    ensures History(b) == [] && b.redoPaths == []
    ensures b.drawPath == CustomPath(b.color, b.brushSize, [])
  {
    Board([], [], [], CustomPath(Black, DefaultBrushSize, []), Black, DefaultBrushSize)
  }

  /** `s` back to front. */
  function Reversed<T>(s: seq<T>): (r: seq<T>)
    ensures |r| == |s|
  {
    if s == [] then [] else [Last(s)] + Reversed(s[..|s| - 1])
  }

  /** Everything undo and redo can reach: the strokes on screen followed by
      the undone ones, the most recently undone first. */
  function History(b: Board): seq<CustomPath>
  {
    b.paths + Reversed(b.undoPaths)
  }

  /** `onClickUndo`. */
  function Undo(b: Board): (r: Board)
    ensures |r.paths| + |r.undoPaths| == |b.paths| + |b.undoPaths|
    ensures b.paths == [] ==> r == b
    ensures b.paths != [] ==> |r.paths| == |b.paths| - 1 && r.redoPaths == []
    ensures r.drawPath == b.drawPath && r.color == b.color && r.brushSize == b.brushSize
  {
    if b.paths == [] then b
    else b.(paths := b.paths[..|b.paths| - 1], undoPaths := b.undoPaths + [Last(b.paths)], redoPaths := [])
  }

  /** `onClickRedo`. */
  function Redo(b: Board): (r: Board)
    ensures |r.paths| + |r.undoPaths| == |b.paths| + |b.undoPaths|
    ensures b.undoPaths == [] ==> r == b
    ensures b.undoPaths != [] ==> |r.paths| == |b.paths| + 1 && b.paths < r.paths
    ensures r.redoPaths == b.redoPaths
    ensures r.drawPath == b.drawPath && r.color == b.color && r.brushSize == b.brushSize
  {
    if b.undoPaths == [] then b
    else b.(paths := b.paths + [Last(b.undoPaths)], undoPaths := b.undoPaths[..|b.undoPaths| - 1])
  }

  /** `clearCanvas`. The stroke being drawn is not touched. */
  function Clear(b: Board): (r: Board)
    ensures r.paths == [] && r.undoPaths == [] && r.redoPaths == []
    ensures r.drawPath == b.drawPath && r.color == b.color && r.brushSize == b.brushSize
  {
    b.(paths := [], undoPaths := [], redoPaths := [])
  }

  /** `onTouchEvent`. Down restyles the current stroke and records a sample
      without discarding the samples already recorded; Up records a sample,
      commits the stroke and starts an empty one. */
  function Touch(b: Board, event: Option<MotionEvent>): (r: Board)
    ensures r.undoPaths == b.undoPaths && r.redoPaths == b.redoPaths
    ensures r.color == b.color && r.brushSize == b.brushSize
    ensures b.paths <= r.paths
    ensures |r.paths| == |b.paths| + (if event.Some? && event.value.action == ActionUp then 1 else 0)
    ensures event.None? || event.value.action == ActionOther ==> r == b
  {
    match event
    case None => b
    case Some(MotionEvent(action, x, y)) =>
      match action
      case ActionDown =>
        b.(drawPath := CustomPath(b.color, b.brushSize, b.drawPath.coordinates + [Coordinate(x, y, PenEdge)]))
      case ActionMove =>
        b.(drawPath := b.drawPath.(coordinates := b.drawPath.coordinates + [Coordinate(x, y, PenMoving)]))
      case ActionUp =>
        b.(paths := b.paths + [b.drawPath.(coordinates := b.drawPath.coordinates + [Coordinate(x, y, PenEdge)])],
           drawPath := CustomPath(b.color, b.brushSize, []))
      case ActionOther => b
  }

  // ---------------------------------------------------------------------------
  // Properties

  /** Appending to a list puts the new element at the front of its reversal. */
  lemma ReversedSnoc<T>(s: seq<T>, x: T)
    ensures Reversed(s + [x]) == [x] + Reversed(s)
  {
    assert (s + [x])[..|s|] == s;
  }

  /** Undo only moves the boundary between the two lists: the history it moves
      along stays the same. */
  lemma UndoKeepsHistory(b: Board)
    ensures History(Undo(b)) == History(b)
  {
    if b.paths != [] {
      ReversedSnoc(b.undoPaths, Last(b.paths));
      assert b.paths[..|b.paths| - 1] + [Last(b.paths)] == b.paths;
    }
  }

  /** So does redo. */
  lemma RedoKeepsHistory(b: Board)
    ensures History(Redo(b)) == History(b)
  {
    if b.undoPaths != [] {
      var rest, last := b.undoPaths[..|b.undoPaths| - 1], Last(b.undoPaths);
      assert rest + [last] == b.undoPaths;
      ReversedSnoc(rest, last);
    }
  }

  /** Redo takes back an undo: the strokes on screen and the undo list are as
      before, and the redo list is empty. */
  lemma RedoAfterUndo(b: Board)
    requires b.paths != []
    ensures Redo(Undo(b)) == b.(redoPaths := [])
  {
    assert b.paths[..|b.paths| - 1] + [Last(b.paths)] == b.paths;
    assert (b.undoPaths + [Last(b.paths)])[..|b.undoPaths|] == b.undoPaths;
  }

  /** Undo takes back a redo, apart from emptying the redo list. */
  lemma UndoAfterRedo(b: Board)
    requires b.undoPaths != []
    ensures Undo(Redo(b)) == b.(redoPaths := [])
  {
    assert b.undoPaths[..|b.undoPaths| - 1] + [Last(b.undoPaths)] == b.undoPaths;
    assert (b.paths + [Last(b.undoPaths)])[..|b.paths|] == b.paths;
  }

  /** The user-facing operations of the view. */
  datatype Operation = ClickUndo | ClickRedo | ClickClear | TouchEvent(event: Option<MotionEvent>)

  function Step(b: Board, op: Operation): Board
  {
    match op
    case ClickUndo => Undo(b)
    case ClickRedo => Redo(b)
    case ClickClear => Clear(b)
    case TouchEvent(event) => Touch(b, event)
  }

  /** The board after a sequence of operations, applied first to last. */
  function Run(b: Board, ops: seq<Operation>): Board
    decreases ops
  {
    if ops == [] then b else Run(Step(b, ops[0]), ops[1..])
  }

  /** Nothing ever adds to the redo list: starting empty, it stays empty
      whatever the user does. */
  lemma {:induction false} RedoListStaysEmpty(b: Board, ops: seq<Operation>)
    requires b.redoPaths == []
    ensures Run(b, ops).redoPaths == []
    decreases ops
  {
    if ops != [] {
      RedoListStaysEmpty(Step(b, ops[0]), ops[1..]);
    }
  }

  /** In particular from the freshly constructed view. */
  lemma RedoListAlwaysEmpty(ops: seq<Operation>)
    ensures Run(InitialBoard(), ops).redoPaths == []
  {
    RedoListStaysEmpty(InitialBoard(), ops);
  }

  /** Running two sequences one after the other. */
  lemma {:induction false} RunConcat(b: Board, first: seq<Operation>, second: seq<Operation>)
    ensures Run(b, first + second) == Run(Run(b, first), second)
    decreases first
  {
    if first == [] {
      assert first + second == second;
    } else {
      assert (first + second)[1..] == first[1..] + second;
      RunConcat(Step(b, first[0]), first[1..], second);
    }
  }

  /** A touch position. */
  datatype Position = Position(x: real, y: real)

  /** The touch events of a sequence of moves. */
  function MoveEvents(moves: seq<Position>): (ops: seq<Operation>)
    ensures |ops| == |moves|
  {
    if moves == [] then []
    else [TouchEvent(Some(MotionEvent(ActionMove, moves[0].x, moves[0].y)))] + MoveEvents(moves[1..])
  }

  /** The samples recorded for a sequence of moves. */
  function MoveSamples(moves: seq<Position>): (samples: seq<Coordinate>)
    ensures |samples| == |moves|
    ensures forall i :: 0 <= i < |moves| ==>
      samples[i] == Coordinate(moves[i].x, moves[i].y, PenMoving)
  {
    if moves == [] then []
    else [Coordinate(moves[0].x, moves[0].y, PenMoving)] + MoveSamples(moves[1..])
  }

  /** Moves extend the current stroke by one moving sample each and change nothing else. */
  lemma {:induction false} RunMoves(b: Board, moves: seq<Position>)
    ensures Run(b, MoveEvents(moves))
      == b.(drawPath := b.drawPath.(coordinates := b.drawPath.coordinates + MoveSamples(moves)))
    decreases moves
  {
    if moves == [] {
      assert b.drawPath.coordinates + [] == b.drawPath.coordinates;
    } else {
      var first := Coordinate(moves[0].x, moves[0].y, PenMoving);
      var next := Step(b, MoveEvents(moves)[0]);
      assert MoveEvents(moves)[1..] == MoveEvents(moves[1..]);
      RunMoves(next, moves[1..]);
      assert b.drawPath.coordinates + [first] + MoveSamples(moves[1..])
        == b.drawPath.coordinates + MoveSamples(moves);
    }
  }

  /** One gesture: a Down at `start`, the `moves`, an Up at `end`. */
  function Gesture(start: Position, moves: seq<Position>, end: Position): seq<Operation>
  {
    [TouchEvent(Some(MotionEvent(ActionDown, start.x, start.y)))]
    + MoveEvents(moves)
    + [TouchEvent(Some(MotionEvent(ActionUp, end.x, end.y)))]
  }

  /** A gesture commits one stroke in the view's colour and brush size, made of
      whatever the current stroke had recorded, then the start sample, the
      moving samples and the end sample; the next stroke starts empty. */
  lemma GestureCommitsStroke(b: Board, start: Position, moves: seq<Position>, end: Position)
    ensures var r := Run(b, Gesture(start, moves, end));
      && r.paths == b.paths + [CustomPath(b.color, b.brushSize,
           b.drawPath.coordinates
           + [Coordinate(start.x, start.y, PenEdge)]
           + MoveSamples(moves)
           + [Coordinate(end.x, end.y, PenEdge)])]
      && r.drawPath == CustomPath(b.color, b.brushSize, [])
      && r.undoPaths == b.undoPaths && r.redoPaths == b.redoPaths
  {
    var down := [TouchEvent(Some(MotionEvent(ActionDown, start.x, start.y)))];
    var up := [TouchEvent(Some(MotionEvent(ActionUp, end.x, end.y)))];
    RunConcat(b, down + MoveEvents(moves), up);
    RunConcat(b, down, MoveEvents(moves));
    var afterDown := Run(b, down);
    assert afterDown == Step(b, down[0]);
    RunMoves(afterDown, moves);
  }

  // ---------------------------------------------------------------------------
  // The view

  class DrawingView {
    var mPaths: seq<CustomPath>
    var mUndoPaths: seq<CustomPath>
    var mRedoPaths: seq<CustomPath>
    var mDrawPath: CustomPath
    var color: int
    var mBrushSize: real

    /** The fields as a `Board`. */
    function State(): Board
      reads this
    {
      Board(mPaths, mUndoPaths, mRedoPaths, mDrawPath, color, mBrushSize)
    }

    /** Construction and `setUpDrawing`: no strokes, an empty black stroke of size 7. */
    constructor ()
      ensures State() == InitialBoard()
    {
      mPaths := [];
      mUndoPaths := [];
      mRedoPaths := [];
      color := Black;
      mBrushSize := DefaultBrushSize;
      mDrawPath := CustomPath(Black, DefaultBrushSize, []);
    }

    /** `onClickUndo`: the last stroke on screen moves to the undo list. */
    method OnClickUndo()
      modifies this
      ensures State() == Undo(old(State()))
    {
      if mPaths != [] {
        var last := mPaths[|mPaths| - 1];
        mPaths := mPaths[..|mPaths| - 1];
        mUndoPaths := mUndoPaths + [last];
        mRedoPaths := [];
      }
    }

    /** `onClickRedo`: the last undone stroke moves back on screen. */
    method OnClickRedo()
      modifies this
      ensures State() == Redo(old(State()))
    {
      if mUndoPaths != [] {
        var last := mUndoPaths[|mUndoPaths| - 1];
        mUndoPaths := mUndoPaths[..|mUndoPaths| - 1];
        mPaths := mPaths + [last];
      }
    }

    /** `clearCanvas`. */
    method ClearCanvas()
      modifies this
      ensures State() == Clear(old(State()))
    {
      mPaths := [];
      mUndoPaths := [];
      mRedoPaths := [];
    }

    /** `onTouchEvent`. */
    method OnTouchEvent(event: Option<MotionEvent>) returns (handled: bool)
      modifies this
      ensures handled <==> event.Some?
      ensures State() == Touch(old(State()), event)
    {
      if event.None? {
        return false;
      }
      var touchX, touchY := event.value.x, event.value.y;
      match event.value.action {
        case ActionDown =>
          mDrawPath := mDrawPath.(color := color, brushThickness := mBrushSize);
          mDrawPath := mDrawPath.(coordinates := mDrawPath.coordinates + [Coordinate(touchX, touchY, PenEdge)]);
        case ActionMove =>
          mDrawPath := mDrawPath.(coordinates := mDrawPath.coordinates + [Coordinate(touchX, touchY, PenMoving)]);
        case ActionUp =>
          mDrawPath := mDrawPath.(coordinates := mDrawPath.coordinates + [Coordinate(touchX, touchY, PenEdge)]);
          mPaths := mPaths + [mDrawPath];
          mDrawPath := CustomPath(color, mBrushSize, []);
        case ActionOther =>
      }
      return true;
    }
  }
}
