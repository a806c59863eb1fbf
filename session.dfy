/**
 * The whole game state as a value, and the effect of every operation of
 * game.js on it: `move`, `rotate`, `drop`, `handleActions`, the PLAY branch
 * of `loop`, `resetGame`, `startGame`, `resumeGame`, `togglePause`,
 * `gameOver` and `showMenu`. The `Game` class performs these operations in
 * place and is proved to agree with the functions here; the properties of
 * the game are proved about the functions.
 *
 * Times are whole milliseconds. The value of `Math.random()` behind each
 * draw of a piece is supplied by the caller (see the `Bag` module).
 */
module Session {
  import opened Pieces
  import opened Board
  import opened Scoring
  import opened Bag

  /** `STATE`: MENU, PLAY, PAUSE, OVER. */
  datatype State = Menu | Play | Pause | Over

  /** Every variable the operations read or write. */
  datatype World = World(
    board: seq<Row>,
    current: Piece,
    next: Piece,
    pool: seq<Kind>,
    actions: seq<string>,
    score: nat,
    rows: nat,
    step: nat,
    dt: nat,
    state: State,
    highscore: nat)

  function Max(a: nat, b: nat): nat
  {
    if a > b then a else b
  }

  /**
   * What holds between any two operations: a whole board, the active piece
   * on it, the upcoming piece in its spawn position, the fall interval that
   * matches the row count and a pool without repeated kinds.
   */
  predicate WorldOk(w: World)
  {
    WellShaped(w.board) && InBounds(w.current) && w.next == Spawn(w.next.kind) &&
    w.step == StepFor(w.rows) && BagOk(w.pool)
  }

  /** While a game is running or paused, the active piece is placeable. */
  predicate Live(w: World)
  {
    WorldOk(w) && ((w.state == Play || w.state == Pause) ==> CanPlace(w.board, w.current))
  }

  // ---------------------------------------------------------------------------
  // The active piece

  /** `move(dx, dy)`: the shifted piece if it can be placed, otherwise the piece unchanged. */
  function Moved(g: seq<Row>, p: Piece, dx: int, dy: int): Piece
  {
    var q := p.(x := p.x + dx, y := p.y + dy);
    if CanPlace(g, q) then q else p
  }

  /** `rotate()`: the piece turned to the next rotation if that can be placed, otherwise unchanged. */
  function Rotated(g: seq<Row>, p: Piece): Piece
  {
    var q := p.(dir := (p.dir + 1) % 4);
    if CanPlace(g, q) then q else p
  }

  /**
   * A move commits exactly when the shifted piece is placeable, only the
   * position changes, and a placeable piece stays placeable.
   */
  lemma MovedSpec(g: seq<Row>, p: Piece, dx: int, dy: int)
    ensures var r := Moved(g, p, dx, dy);
            var q := p.(x := p.x + dx, y := p.y + dy);
            (r == q || r == p) &&
            ((dx, dy) != (0, 0) ==> (r == q <==> CanPlace(g, q))) &&
            (CanPlace(g, r) <==> CanPlace(g, p) || CanPlace(g, q)) &&
            (InBounds(p) ==> InBounds(r))
  {
    var q := p.(x := p.x + dx, y := p.y + dy);
    if CanPlace(g, q) {
      CanPlaceInBounds(g, q);
    }
  }

  /**
   * A rotation never moves the piece: it turns to `(dir + 1) % 4` exactly
   * when that is placeable, and a placeable piece stays placeable.
   */
  lemma RotatedSpec(g: seq<Row>, p: Piece)
    ensures var r := Rotated(g, p);
            var q := p.(dir := (p.dir + 1) % 4);
            (r == q || r == p) &&
            r.kind == p.kind && r.x == p.x && r.y == p.y &&
            (r == q <==> CanPlace(g, q)) &&
            (CanPlace(g, r) <==> CanPlace(g, p) || CanPlace(g, q)) &&
            (InBounds(p) ==> InBounds(r))
  {
    var q := p.(dir := (p.dir + 1) % 4);
    if CanPlace(g, q) {
      CanPlaceInBounds(g, q);
    }
  }

  /** Turning the square occupies the same cells, so it succeeds exactly when the square is placeable. */
  lemma RotatedSquare(g: seq<Row>, p: Piece)
    requires p.kind == O
    ensures Cells(Rotated(g, p)) == Cells(p)
    ensures Rotated(g, p) != p <==> CanPlace(g, p)
  {
    SquareRotationInvariant(p.dir);
    SquareRotationInvariant((p.dir + 1) % 4);
  }

  // ---------------------------------------------------------------------------
  // Drop, line clear, game over

  /**
   * `clearLines` on a world whose board has just been locked: the complete
   * rows are removed; when there were c > 0 of them the row count, the
   * score and the fall interval are updated.
   */
  function ClearW(w: World): World
  {
    var c := CountFull(w.board);
    if c > 0 then
      w.(board := Cleared(w.board), rows := w.rows + c, score := w.score + Points(c), step := StepFor(w.rows + c))
    else
      w.(board := Cleared(w.board))
  }

  /**
   * After `clearLines` no row is complete, the row count has grown by the
   * number c of complete rows before the call, the board has lost NX cells
   * per removed row, the score has grown by the award for c rows and the
   * fall interval follows the new row count, so it never grows. When no row
   * was complete nothing changes at all.
   */
  lemma ClearWSpec(w: World)
    requires WellShaped(w.board)
    ensures var r := ClearW(w);
            WellShaped(r.board) && (forall y :: 0 <= y < NY ==> !Full(r.board[y])) &&
            r.rows == w.rows + CountFull(w.board) &&
            CellCount(r.board) + NX * (r.rows - w.rows) == CellCount(w.board) &&
            r.score == (if r.rows > w.rows then w.score + Points(r.rows - w.rows) else w.score) &&
            (w.step == StepFor(w.rows) ==> r.step == StepFor(r.rows) && r.step <= w.step)
  {
    ClearedNoFullRow(w.board);
    ClearedCount(w.board);
    StepMonotone(w.rows, w.rows + CountFull(w.board));
    if CountFull(w.board) > 0 {
      assert ClearW(w).rows == w.rows + CountFull(w.board);
    } else {
      assert ClearW(w).rows == w.rows;
    }
  }

  /** `clearLines` touches only the board and the counters, and nothing at all when no row is complete. */
  lemma ClearWKeeps(w: World)
    requires WellShaped(w.board)
    ensures var r := ClearW(w);
            (CountFull(w.board) == 0 ==> r == w) &&
            r == w.(board := r.board, rows := r.rows, score := r.score, step := r.step)
  {
    ClearedIdempotent(w.board);
  }

  /** `gameOver()`: state OVER and the high score raised to the final score if that is higher. */
  function GameOverW(w: World): (r: World)
    ensures r.state == Over && r.highscore == Max(w.highscore, w.score)
    ensures r.highscore >= w.highscore && r.highscore >= w.score
    ensures r.highscore == w.highscore || r.highscore == w.score
    ensures r == w.(state := Over, highscore := r.highscore)
  {
    w.(state := Over, highscore := if w.score > w.highscore then w.score else w.highscore)
  }

  /** `drop()`: the piece descends one row if it can; otherwise it is locked in. */
  function DropW(w: World, u: Random): World
  {
    var below := w.current.(y := w.current.y + 1);
    if CanPlace(w.board, below) then w.(current := below) else LockW(w, u)
  }

  /**
   * The lock branch of `drop()`: the piece is written into the board,
   * complete rows are cleared, `next` becomes the active piece, a new `next`
   * is drawn with random number u, and the game ends if the new active piece
   * cannot be placed.
   */
  function LockW(w: World, u: Random): World
  {
    PromoteW(LockClearW(w), u)
  }

  /** The piece written into the board, then `clearLines`. */
  function LockClearW(w: World): World
  {
    ClearW(Locked(w))
  }

  /** The piece written into the board. */
  function Locked(w: World): World
  {
    w.(board := Lock(w.board, w.current))
  }

  /**
   * The end of the lock branch: `next` becomes the active piece, a new
   * `next` is drawn with random number u, and `gameOver()` runs if the new
   * active piece cannot be placed.
   */
  function PromoteW(w: World, u: Random): World
  {
    var d := Draw(w.pool, u);
    var p := w.(current := w.next, next := Spawn(d.0), pool := d.1);
    if CanPlace(p.board, p.current) then p else GameOverW(p)
  }

  /**
   * The lock and the clear change only the board and the counters; the
   * counters do not shrink and the fall interval follows the row count.
   */
  lemma LockClearSpec(w: World)
    requires WorldOk(w)
    ensures var r := LockClearW(w);
            WellShaped(r.board) && r.board == Cleared(Lock(w.board, w.current)) &&
            r.rows >= w.rows && r.score >= w.score &&
            r.step == StepFor(r.rows) && r.step <= w.step &&
            r == w.(board := r.board, rows := r.rows, score := r.score, step := r.step)
  {
    ClearWSpec(Locked(w));
    ClearWKeeps(Locked(w));
  }

  /**
   * Promotion: the old `next` is the active piece, the new `next` is the
   * spawn of the drawn kind, the pool loses that kind, and the state becomes
   * OVER exactly when the new active piece is not placeable, in which case
   * the high score takes in the score. Nothing else changes, and the world
   * keeps its invariant.
   */
  lemma PromoteSpec(w: World, u: Random)
    requires WellShaped(w.board) && BagOk(w.pool) && w.next == Spawn(w.next.kind) && w.step == StepFor(w.rows)
    ensures var r := PromoteW(w, u);
            WorldOk(r) &&
            r.current == w.next && r.next == Spawn(Draw(w.pool, u).0) && r.pool == Draw(w.pool, u).1 &&
            r.state == (if CanPlace(w.board, w.next) then w.state else Over) &&
            r.highscore == (if CanPlace(w.board, w.next) then w.highscore else Max(w.highscore, w.score)) &&
            r == w.(current := r.current, next := r.next, pool := r.pool, state := r.state, highscore := r.highscore)
  {
    DrawKeepsBag(w.pool, u);
    SpawnInBounds(w.next.kind);
  }

  /**
   * The whole lock: the board is the locked board with its complete rows
   * cleared, the pieces move up as in `PromoteSpec`, the game ends exactly
   * when the new active piece does not fit, the counters do not shrink, the
   * fall interval does not grow, and the queue and the accumulator are left
   * alone. The world keeps its invariant.
   */
  lemma LockSpec(w: World, u: Random)
    requires WorldOk(w)
    ensures var r := LockW(w, u);
            WorldOk(r) && r.board == Cleared(Lock(w.board, w.current)) &&
            r.current == w.next && r.next == Spawn(Draw(w.pool, u).0) && r.pool == Draw(w.pool, u).1 &&
            r.state == (if CanPlace(r.board, w.next) then w.state else Over) &&
            r.rows >= w.rows && r.score >= w.score && r.step <= w.step && r.highscore >= w.highscore &&
            r.actions == w.actions && r.dt == w.dt
  {
    var c := LockClearW(w);
    LockClearSpec(w);
    PromoteSpec(c, u);
  }

  /**
   * A lock of a placeable piece adds four cells and each cleared row takes
   * NX away; no complete row is left; the score grows by the award for the
   * cleared rows.
   */
  lemma LockCounts(w: World, u: Random)
    requires WorldOk(w)
    ensures var r := LockW(w, u);
            (CanPlace(w.board, w.current) ==> CellCount(r.board) + NX * (r.rows - w.rows) == CellCount(w.board) + 4) &&
            WellShaped(r.board) && (forall y :: 0 <= y < NY ==> !Full(r.board[y])) &&
            r.score == if r.rows > w.rows then w.score + Points(r.rows - w.rows) else w.score
  {
    var c := LockClearW(w);
    LockClearSpec(w);
    ClearWSpec(Locked(w));
    PromoteSpec(c, u);
    if CanPlace(w.board, w.current) {
      LockCount(w.board, w.current);
    }
  }

  /**
   * A drop keeps the world live whatever the state before: the piece moves
   * to a placeable position, or the new piece fits, or the game is over. The
   * fall interval does not grow, the counters and the high score do not
   * shrink, and the queue and the accumulator are untouched.
   */
  lemma DropSpec(w: World, u: Random)
    requires WorldOk(w)
    ensures var r := DropW(w, u);
            Live(r) &&
            r.step <= w.step && r.score >= w.score && r.rows >= w.rows && r.highscore >= w.highscore &&
            r.actions == w.actions && r.dt == w.dt
  {
    var below := w.current.(y := w.current.y + 1);
    if CanPlace(w.board, below) {
      CanPlaceInBounds(w.board, below);
    } else {
      DropLocks(w, u);
      LockSpec(w, u);
    }
  }

  /** When the row below is taken, a drop is the lock. */
  lemma DropLocks(w: World, u: Random)
    requires !CanPlace(w.board, w.current.(y := w.current.y + 1))
    ensures DropW(w, u) == LockW(w, u)
  {
  }

  /**
   * When the row below is free, a drop moves the piece down by one row and
   * changes nothing else.
   */
  lemma DropDescends(w: World, u: Random)
    requires CanPlace(w.board, w.current.(y := w.current.y + 1))
    ensures DropW(w, u) == w.(current := w.current.(y := w.current.y + 1))
  {
  }

  // ---------------------------------------------------------------------------
  // One frame

  /** The four action strings `handleActions` acts on. */
  predicate Known(a: string)
  {
    a == "left" || a == "right" || a == "down" || a == "rotate"
  }

  /**
   * `handleActions()`: takes the first queued action, if any, and performs
   * it; `'down'` is a drop with random number u, any other string is taken
   * from the queue without effect.
   */
  function HandleW(w: World, u: Random): World
  {
    if w.actions == [] then w
    else
      var a := w.actions[0];
      var v := Pop(w);
      if a == "left" then v.(current := Moved(v.board, v.current, -1, 0))
      else if a == "right" then v.(current := Moved(v.board, v.current, 1, 0))
      else if a == "down" then DropW(v, u)
      else if a == "rotate" then v.(current := Rotated(v.board, v.current))
      else v
  }

  /** `actions.shift()` on a non-empty queue. */
  function Pop(w: World): World
    requires w.actions != []
  {
    w.(actions := w.actions[1..])
  }

  /**
   * Exactly one queued action is consumed (none when the queue is empty), an
   * unknown string changes nothing else, a live world stays live, the state
   * stays or becomes OVER, the fall interval does not grow and the score and
   * the high score do not shrink.
   */
  lemma HandleSpec(w: World, u: Random)
    requires WorldOk(w)
    ensures var r := HandleW(w, u);
            WorldOk(r) && (Live(w) ==> Live(r)) &&
            r.actions == (if w.actions == [] then [] else w.actions[1..]) &&
            (w.actions == [] ==> r == w) &&
            (w.actions != [] && !Known(w.actions[0]) ==> r == w.(actions := w.actions[1..])) &&
            (r.state == w.state || r.state == Over) &&
            r.step <= w.step && r.score >= w.score && r.rows >= w.rows && r.highscore >= w.highscore &&
            r.dt == w.dt
  {
    if w.actions != [] {
      var a := w.actions[0];
      var v := Pop(w);
      if a == "left" {
        MovedSpec(v.board, v.current, -1, 0);
      } else if a == "right" {
        MovedSpec(v.board, v.current, 1, 0);
      } else if a == "down" {
        DropSpec(v, u);
        DropStates(v, u);
      } else if a == "rotate" {
        RotatedSpec(v.board, v.current);
      }
    }
  }

  /** A drop leaves the state alone or ends the game. */
  lemma DropStates(w: World, u: Random)
    ensures DropW(w, u).state == w.state || DropW(w, u).state == Over
  {
    var below := w.current.(y := w.current.y + 1);
    if !CanPlace(w.board, below) {
      var c := LockClearW(w);
      assert c.state == w.state;
    }
  }

  /**
   * The PLAY branch of `loop`: delta milliseconds are added to the
   * accumulator, one queued action is handled (random number u1 if it is a
   * drop), and if the accumulator then exceeds the fall interval, one
   * interval is taken off and the piece falls (random number u2).
   */
  function FrameW(w: World, delta: nat, u1: Random, u2: Random): World
  {
    if w.state != Play then w else PlayW(w, delta, u1, u2)
  }

  /** The body of the PLAY branch. */
  function PlayW(w: World, delta: nat, u1: Random, u2: Random): World
  {
    FallW(HandleW(Tick(w, delta), u1), u2)
  }

  /** `dt += delta`. */
  function Tick(w: World, delta: nat): World
  {
    w.(dt := w.dt + delta)
  }

  /** The natural fall: once the accumulator exceeds the fall interval, one interval is taken off and the piece drops. */
  function FallW(h: World, u: Random): World
  {
    if h.dt > h.step then DropW(Spend(h), u) else h
  }

  /** `dt -= step`. */
  function Spend(h: World): World
    requires h.dt > h.step
  {
    h.(dt := h.dt - h.step)
  }

  /** Outside PLAY a frame changes nothing. */
  lemma FrameIdle(w: World, delta: nat, u1: Random, u2: Random)
    requires w.state != Play
    ensures FrameW(w, delta, u1, u2) == w
  {
  }

  /**
   * In PLAY a frame keeps the invariant and a live world live, consumes at
   * most one action, does not grow the fall interval and does not shrink
   * the score or the high score.
   */
  lemma FrameSpec(w: World, delta: nat, u1: Random, u2: Random)
    requires WorldOk(w) && w.state == Play
    ensures var r := FrameW(w, delta, u1, u2);
            WorldOk(r) && (Live(w) ==> Live(r)) &&
            r.actions == (if w.actions == [] then [] else w.actions[1..]) &&
            r.step <= w.step && r.score >= w.score && r.highscore >= w.highscore
  {
    var v := Tick(w, delta);
    HandleSpec(v, u1);
    FallSpec(HandleW(v, u1), u2);
    FramePlays(w, delta, u1, u2);
  }

  /** In PLAY a frame is the body of the PLAY branch. */
  lemma FramePlays(w: World, delta: nat, u1: Random, u2: Random)
    requires w.state == Play
    ensures FrameW(w, delta, u1, u2) == PlayW(w, delta, u1, u2)
  {
  }

  /**
   * The natural fall keeps the world's invariant and a live world live,
   * leaves the queue alone, does not grow the fall interval and does not
   * shrink the score or the high score.
   */
  lemma FallSpec(h: World, u: Random)
    requires WorldOk(h)
    ensures var r := FallW(h, u);
            WorldOk(r) && (Live(h) ==> Live(r)) && r.actions == h.actions &&
            r.step <= h.step && r.score >= h.score && r.highscore >= h.highscore
  {
    if h.dt > h.step {
      DropSpec(Spend(h), u);
      FallDrops(h, u);
    } else {
      FallRests(h, u);
    }
  }

  /** Past the interval, the fall is a drop of the world with one interval spent. */
  lemma FallDrops(h: World, u: Random)
    requires h.dt > h.step
    ensures FallW(h, u) == DropW(Spend(h), u)
  {
  }

  /** Within the interval, nothing falls. */
  lemma FallRests(h: World, u: Random)
    requires h.dt <= h.step
    ensures FallW(h, u) == h
  {
  }

  /**
   * The natural fall does not test the state: once an action has ended the
   * game in this frame, a due fall whose row below is taken still locks the
   * piece, which need not be placeable, and may clear rows and add to the
   * score after OVER.
   */
  lemma FallAfterOverLocks(h: World, u: Random)
    requires h.state == Over && h.dt > h.step
    requires !CanPlace(h.board, h.current.(y := h.current.y + 1))
    ensures FallW(h, u) == LockW(Spend(h), u)
  {
    var s := Spend(h);
    assert s.board == h.board && s.current == h.current;
    DropLocks(s, u);
    FallDrops(h, u);
  }

  /**
   * A frame with an empty queue and little elapsed time changes only the
   * accumulator: the natural drop happens only when it exceeds the interval.
   */
  lemma FrameWaits(w: World, delta: nat, u1: Random, u2: Random)
    requires w.state == Play && w.actions == [] && w.dt + delta <= w.step
    ensures FrameW(w, delta, u1, u2) == w.(dt := w.dt + delta)
  {
  }

  /**
   * With an empty queue and an accumulator past the interval, a frame is
   * exactly one natural drop, and the accumulator keeps the remainder.
   */
  lemma FrameFalls(w: World, delta: nat, u1: Random, u2: Random)
    requires w.state == Play && w.actions == [] && w.dt + delta > w.step
    ensures FrameW(w, delta, u1, u2) == DropW(Spend(Tick(w, delta)), u2)
    ensures Spend(Tick(w, delta)) == w.(dt := w.dt + delta - w.step)
    ensures FrameW(w, delta, u1, u2).dt == w.dt + delta - w.step
  {
    FramePlays(w, delta, u1, u2);
    FallDrops(Tick(w, delta), u2);
  }

  // ---------------------------------------------------------------------------
  // Session

  /** The board emptied, the counters and the interval at their starting values, the queue dropped. */
  function Wiped(w: World): World
  {
    w.(board := EmptyBoard(), score := 0, rows := 0, step := SPEED_START, dt := 0, actions := [])
  }

  /** The current and the next piece drawn from the bag with random numbers u1 and u2. */
  function Dealt(w: World, u1: Random, u2: Random): World
  {
    var d1 := Draw(w.pool, u1);
    var d2 := Draw(d1.1, u2);
    w.(current := Spawn(d1.0), next := Spawn(d2.0), pool := d2.1)
  }

  /**
   * `resetGame()`: an empty board, zero score, rows and accumulator, the
   * starting fall interval, two pieces drawn with random numbers u1 and u2 (the
   * pool carries over from the previous game) and an empty action queue.
   */
  function ResetW(w: World, u1: Random, u2: Random): World
  {
    Dealt(Wiped(w), u1, u2)
  }

  /** The world `resetGame()` leaves behind keeps the invariant. */
  lemma ResetOk(w: World, u1: Random, u2: Random)
    requires BagOk(w.pool)
    ensures WorldOk(ResetW(w, u1, u2))
  {
    DrawKeepsBag(w.pool, u1);
    DrawKeepsBag(Draw(w.pool, u1).1, u2);
    SpawnInBounds(Draw(w.pool, u1).0);
  }

  /** `startGame()`: reset, then PLAY. */
  function StartW(w: World, u1: Random, u2: Random): World
  {
    ResumeW(ResetW(w, u1, u2))
  }

  /**
   * A new game starts live in PLAY on an empty board with zero counters, the
   * starting interval and an empty queue, and keeps the high score.
   */
  lemma StartLive(w: World, u1: Random, u2: Random)
    requires BagOk(w.pool)
    ensures var r := StartW(w, u1, u2);
            Live(r) && r.state == Play && r.board == EmptyBoard() && CellCount(r.board) == 0 &&
            r.score == 0 && r.rows == 0 && r.dt == 0 && r.step == SPEED_START && r.actions == [] &&
            r.highscore == w.highscore
  {
    var d1 := Draw(w.pool, u1);
    DrawKeepsBag(w.pool, u1);
    DrawKeepsBag(d1.1, u2);
    SpawnFitsEmptyBoard(d1.0);
    SpawnInBounds(d1.0);
    BlankCount(NY);
  }

  /** `resumeGame()`: PLAY, from whatever state. */
  function ResumeW(w: World): World
  {
    w.(state := Play)
  }

  /** `togglePause()`: PLAY becomes PAUSE, PAUSE resumes, other states are left alone. */
  function TogglePauseW(w: World): World
  {
    if w.state == Play then w.(state := Pause)
    else if w.state == Pause then ResumeW(w)
    else w
  }

  /** Pausing swaps PLAY and PAUSE, touches nothing else, and keeps a live world live; toggling twice is no change. */
  lemma TogglePauseSpec(w: World)
    ensures var r := TogglePauseW(w);
            (w.state == Play <==> r.state == Pause) &&
            (w.state == Pause <==> r.state == Play) &&
            (w.state != Play && w.state != Pause ==> r == w) &&
            r == w.(state := r.state) &&
            (Live(w) ==> Live(r)) &&
            TogglePauseW(r) == w
  {
  }

  /** `showMenu()`: MENU. */
  function ShowMenuW(w: World): World
  {
    w.(state := Menu)
  }

  /** Resuming from PAUSE keeps a live world live. */
  lemma ResumeFromPause(w: World)
    requires Live(w) && w.state == Pause
    ensures Live(ResumeW(w)) && ResumeW(w).state == Play
  {
  }

  /** Leaving for the menu or ending the game keeps the world live: the piece no longer matters. */
  lemma EndingKeepsLive(w: World)
    requires WorldOk(w)
    ensures Live(ShowMenuW(w)) && Live(GameOverW(w))
    ensures ShowMenuW(w).highscore == w.highscore && GameOverW(w).highscore == Max(w.highscore, w.score)
  {
  }
}
