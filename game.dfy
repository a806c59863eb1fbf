/**
 * The game of game.js as an object whose fields the operations update in
 * place: the board array, the active and upcoming piece, the piece pool, the
 * action queue, the counters and the session state. A ghost field holds the
 * board as rows; every operation is proved to have exactly the effect its
 * counterpart in `Session` describes on the value `Snap()` of the fields.
 */
module Tetris {
  import opened Pieces
  import opened Board
  import opened Scoring
  import opened Bag
  import opened Session

  class Game {
    /** `blocks[x][y]`: NX columns of NY cells. */
    var blocks: array2<Cell>
    /** The same cells as rows, top row first: `board[y][x]` is `blocks[x][y]`. */
    ghost var board: seq<Row>
    var current: Piece
    var next: Piece
    /** `nextPiece.pool`: the kinds not yet dealt in the current round. */
    var pool: seq<Kind>
    /** The queued action strings. */
    var actions: seq<string>
    var score: nat
    var rows: nat
    /** Fall interval and time accumulator, in milliseconds. */
    var step: nat
    var dt: nat
    var state: State
    var highscore: nat

    /** The array is NX by NY and `board` holds its contents. */
    ghost predicate Coupled()
      reads this`blocks, this`board, blocks
    {
      blocks.Length0 == NX && blocks.Length1 == NY && WellShaped(board) &&
      forall y, x :: 0 <= y < NY && 0 <= x < NX ==> board[y][x] == blocks[x, y]
    }

    /** The fields as a value. */
    ghost function Snap(): World
      reads this
    {
      World(board, current, next, pool, actions, score, rows, step, dt, state, highscore)
    }

    /** What holds between any two operations. */
    ghost predicate Valid()
      reads this, blocks
    {
      Coupled() && WorldOk(Snap())
    }

    // -------------------------------------------------------------------------
    // Board queries

    /** `occupied(x, y)` on the array. */
    function Occupied(x: int, y: int): (r: bool)
      reads this, blocks
      requires Coupled()
      ensures r == Board.Occupied(board, x, y)
    {
      x < 0 || x >= NX || y < 0 || y >= NY || blocks[x, y] != Empty
    }

    /** `canPlace(p)` on the array. */
    function CanPlace(p: Piece): (r: bool)
      reads this, blocks
      requires Coupled()
      ensures r == Board.CanPlace(board, p)
    {
      var cs := Cells(p);
      FreeAt(board, cs);
      forall i | 0 <= i < |cs| :: !Occupied(cs[i].x, cs[i].y)
    }

    /** `blocks.every(col => col[y])`. */
    function RowFull(y: int): (r: bool)
      reads this, blocks
      requires Coupled() && 0 <= y < NY
      ensures r == Full(board[y])
    {
      forall x | 0 <= x < NX :: blocks[x, y] != Empty
    }

    // -------------------------------------------------------------------------
    // Locking and line clearing

    /** The cells of p scanned in the first n steps hold p's kind; every other cell is as in g. */
    ghost predicate Painted(g: seq<Row>, p: Piece, n: nat)
      reads this`blocks, blocks
      requires blocks.Length0 == NX && blocks.Length1 == NY && WellShaped(g)
    {
      forall x, y :: 0 <= x < NX && 0 <= y < NY ==>
        blocks[x, y] == if Scanned(Mask(p.kind, p.dir), n, Pos(x - p.x, y - p.y)) then Filled(p.kind) else g[y][x]
    }

    /**
     * The lock of game.js:151: `eachBlock` scans the mask from its most
     * significant bit and the callback writes the piece's kind into each
     * visited cell.
     */
    method LockPiece()
      requires Coupled() && InBounds(current)
      modifies this`board, blocks
      ensures Coupled() && board == Board.Lock(old(board), current)
    {
      var p := current;
      ghost var g := board;
      ScanInBounds(p);
      var bit: bv16 := 0x8000;
      var r, c := 0, 0;
      ghost var i := 0;
      while bit != 0
        invariant blocks.Length0 == NX && blocks.Length1 == NY
        invariant 0 <= i <= 16 && r == i / 4 && c == i % 4
        invariant bit == if i < 16 then Bit(i) else 0
        invariant Painted(g, p, i)
        invariant forall j :: 0 <= j < 16 && HasBit(Mask(p.kind, p.dir), j) ==> 0 <= p.x + j % 4 < NX && 0 <= p.y + j / 4 < NY
        decreases 16 - i
      {
        LockStep(p, g, i, bit, c, r);
        BitNext(i);
        StepNext(i);
        c := c + 1;
        if c == 4 {
          c := 0;
          r := r + 1;
        }
        bit := bit >> 1;
        i := i + 1;
      }
      board := Board.Lock(g, p);
      PaintedLocks(g, p);
    }

    /** A finished scan leaves the array holding the locked board. */
    lemma PaintedLocks(g: seq<Row>, p: Piece)
      requires blocks.Length0 == NX && blocks.Length1 == NY && WellShaped(g) && InBounds(p)
      requires Painted(g, p, 16) && board == Board.Lock(g, p)
      ensures Coupled()
    {
      forall y, x | 0 <= y < NY && 0 <= x < NX ensures board[y][x] == blocks[x, y] {
        LockAtScan(g, p, x, y);
      }
    }

    /** One scan step of the lock: when the step's bit is set, the callback fills the cell it visits. */
    method LockStep(p: Piece, ghost g: seq<Row>, ghost i: nat, bit: bv16, c: int, r: int)
      requires blocks.Length0 == NX && blocks.Length1 == NY && WellShaped(g)
      requires i < 16 && bit == Bit(i) && c == i % 4 && r == i / 4
      requires HasBit(Mask(p.kind, p.dir), i) ==> 0 <= p.x + c < NX && 0 <= p.y + r < NY
      requires Painted(g, p, i)
      modifies blocks
      ensures Painted(g, p, i + 1)
    {
      var m := Mask(p.kind, p.dir);
      if m & bit != 0 {
        assert HasBit(m, i);
        blocks[p.x + c, p.y + r] := Filled(p.kind);
      }
      forall x, y | 0 <= x < NX && 0 <= y < NY
        ensures blocks[x, y] == if Scanned(m, i + 1, Pos(x - p.x, y - p.y)) then Filled(p.kind) else g[y][x]
      {
        ScanStep(m, i, Pos(x - p.x, y - p.y));
      }
    }

    /**
     * Removes row y: every row above it moves down by one (`col[yy] = col[yy-1]`
     * for yy from y down to 1) and row 0 becomes empty.
     */
    method ShiftDown(y: int)
      requires Coupled() && 0 <= y < NY
      modifies this`board, blocks
      ensures Coupled() && board == [EmptyRow()] + old(board)[..y] + old(board)[y + 1..]
    {
      ghost var g := board;
      var yy := y;
      while yy > 0
        invariant 0 <= yy <= y
        invariant forall x, z :: 0 <= x < NX && 0 <= z < NY ==>
                    blocks[x, z] == if yy < z <= y then g[z - 1][x] else g[z][x]
      {
        forall x | 0 <= x < NX {
          blocks[x, yy] := blocks[x, yy - 1];
        }
        yy := yy - 1;
      }
      forall x | 0 <= x < NX {
        blocks[x, 0] := Empty;
      }
      board := [EmptyRow()] + g[..y] + g[y + 1..];
      forall z, x | 0 <= z < NY && 0 <= x < NX ensures board[z][x] == blocks[x, z] {
        ShiftedAt(g, y, z, x);
      }
    }

    /**
     * `clearLines`: the complete rows are removed; when c rows were removed,
     * the row count, the score and the fall interval are updated.
     */
    method ClearLines() returns (c: nat)
      requires Coupled()
      modifies this, blocks
      ensures Coupled() && blocks == old(blocks)
      ensures c == CountFull(old(board))
      ensures Snap() == ClearW(old(Snap()))
    {
      c := RemoveFullRows();
      if c > 0 {
        rows := rows + c;
        score := score + Points(c);
        step := StepFor(rows);
      }
    }

    /**
     * The scan of `clearLines`, bottom to top: a complete row is removed with
     * `ShiftDown` and the same row index is examined again.
     */
    method RemoveFullRows() returns (c: nat)
      requires Coupled()
      modifies this`board, blocks
      ensures Coupled() && c == CountFull(old(board)) && board == Cleared(old(board))
    {
      ghost var o := board;
      ghost var j := NY;
      c := 0;
      var y: int := NY - 1;
      PendingStart(o);
      while y >= 0
        invariant Coupled()
        invariant -1 <= y < NY && 0 <= j <= NY
        invariant y + 1 <= c + j && (j > 0 ==> y + 1 == c + j)
        invariant c == CountFull(o[j..])
        invariant board == Pending(o, c, j)
        decreases j + y + 1
      {
        PendingRow(o, c, j, y);
        if RowFull(y) {
          PendingFull(o, c, j);
          ShiftDown(y);
          c := c + 1;
          j := j - 1;
          y := y + 1;
        } else if j > 0 {
          PendingKeep(o, c, j);
          j := j - 1;
        }
        y := y - 1;
      }
      assert j == 0 && o[0..] == o;
      PendingEnd(o);
    }

    // -------------------------------------------------------------------------
    // Pieces

    /**
     * `nextPiece()`: refills the pool with all seven kinds when it is empty,
     * removes the kind at the index chosen by the random number u and returns
     * it in its spawn position.
     */
    method NextPiece(u: Random) returns (p: Piece)
      modifies this`pool
      ensures p == Spawn(Draw(old(pool), u).0) && pool == Draw(old(pool), u).1
    {
      if |pool| == 0 {
        pool := AllKinds;
      }
      var i := Index(u, |pool|);
      var t := pool[i];
      pool := pool[..i] + pool[i + 1..];
      p := Piece(t, 0, (NX - Size(t)) / 2, 0);
    }

    /** `move(dx, dy)`: the active piece takes the shifted position if it can be placed there. */
    method Move(dx: int, dy: int)
      requires Valid()
      modifies this`current
      ensures Valid() && current == Moved(board, old(current), dx, dy)
    {
      var p := current.(x := current.x + dx, y := current.y + dy);
      if CanPlace(p) {
        CanPlaceInBounds(board, p);
        current := p;
      }
    }

    /** `rotate()`: the active piece turns to its next rotation if that can be placed. */
    method Rotate()
      requires Valid()
      modifies this`current
      ensures Valid() && current == Rotated(board, old(current))
    {
      var nd := (current.dir + 1) % 4;
      if CanPlace(current.(dir := nd)) {
        CanPlaceInBounds(board, current.(dir := nd));
        current := current.(dir := nd);
      }
    }

    /**
     * `drop()`: if the row below is not free, the piece is locked in, complete
     * rows are cleared, `next` becomes the active piece and a new `next` is
     * drawn with random number u; the game ends if the new active piece
     * cannot be placed. Otherwise the piece moves down one row.
     */
    method Drop(u: Random)
      requires Valid()
      modifies this, blocks
      ensures Valid() && blocks == old(blocks)
      ensures Snap() == DropW(old(Snap()), u)
      ensures Live(Snap())
    {
      ghost var w := Snap();
      var below := current.(y := current.y + 1);
      assert w.board == board && below == w.current.(y := w.current.y + 1);
      if !CanPlace(below) {
        DropLocks(w, u);
        LockDown(u);
      } else {
        DropDescends(w, u);
        current := below;
      }
      DropSpec(w, u);
    }

    /** The lock branch of `drop()`. */
    method LockDown(u: Random)
      requires Valid()
      modifies this, blocks
      ensures Coupled() && blocks == old(blocks)
      ensures Snap() == LockW(old(Snap()), u)
    {
      LockAndClear();
      Promote(u);
    }

    /** After the lock: `next` becomes active, a new `next` is drawn, and the game ends if the active piece does not fit. */
    method Promote(u: Random)
      requires Coupled() && BagOk(pool) && next == Spawn(next.kind) && step == StepFor(rows)
      modifies this`current, this`next, this`pool, this`state, this`highscore
      ensures Coupled() && Snap() == PromoteW(old(Snap()), u)
    {
      ghost var v := Snap();
      current := next;
      next := NextPiece(u);
      assert Snap() == v.(current := v.next, next := Spawn(Draw(v.pool, u).0), pool := Draw(v.pool, u).1);
      if !CanPlace(current) {
        GameOver();
      }
    }

    /** The piece is written into the board and the complete rows are cleared. */
    method LockAndClear()
      requires Valid()
      modifies this, blocks
      ensures Coupled() && blocks == old(blocks)
      ensures Snap() == ClearW(old(Snap()).(board := Lock(old(board), old(current))))
      ensures Snap() == LockClearW(old(Snap()))
    {
      ghost var w := Snap();
      LockPiece();
      assert Snap() == w.(board := Lock(w.board, w.current));
      var c := ClearLines();
    }

    /** `gameOver()`: state OVER, and the high score becomes the score if that is higher. */
    method GameOver()
      modifies this`state, this`highscore
      ensures Coupled() == old(Coupled())
      ensures Snap() == GameOverW(old(Snap()))
    {
      state := Over;
      if score > highscore {
        highscore := score;
      }
    }

    // -------------------------------------------------------------------------
    // Actions and frames

    /** An input handler pushing an action string onto the queue. */
    method Enqueue(a: string)
      modifies this`actions
      ensures actions == old(actions) + [a]
    {
      actions := actions + [a];
    }

    /**
     * `handleActions()`: takes the first queued action, if any, and performs
     * it; a `'down'` drops with random number u.
     */
    method HandleActions(u: Random)
      requires Valid()
      modifies this, blocks
      ensures Valid() && blocks == old(blocks)
      ensures Snap() == HandleW(old(Snap()), u)
      ensures Live(old(Snap())) ==> Live(Snap())
    {
      HandleSpec(Snap(), u);
      if |actions| == 0 {
        return;
      }
      var a := actions[0];
      actions := actions[1..];
      if a == "left" {
        Move(-1, 0);
      } else if a == "right" {
        Move(1, 0);
      } else if a == "down" {
        Drop(u);
      } else if a == "rotate" {
        Rotate();
      }
    }

    /**
     * One call of `loop` after delta milliseconds: in PLAY, the accumulator
     * grows, one action is handled (random number u1), and if the accumulator
     * then exceeds the fall interval, one interval is taken off and the piece
     * falls (random number u2).
     */
    method Loop(delta: nat, u1: Random, u2: Random)
      requires Valid()
      modifies this, blocks
      ensures Valid() && blocks == old(blocks)
      ensures Snap() == FrameW(old(Snap()), delta, u1, u2)
      ensures Live(old(Snap())) ==> Live(Snap())
    {
      if state == Play {
        ghost var w := Snap();
        AddTime(delta);
        HandleActions(u1);
        Fall(u2);
        FramePlays(w, delta, u1, u2);
        FrameSpec(w, delta, u1, u2);
      }
    }

    /** The end of the PLAY branch of `loop`: past the fall interval, one interval is taken off and the piece drops. */
    method Fall(u: Random)
      requires Valid()
      modifies this, blocks
      ensures Valid() && blocks == old(blocks)
      ensures Snap() == FallW(old(Snap()), u)
    {
      ghost var h := Snap();
      if dt > step {
        TakeStep();
        Drop(u);
        FallDrops(h, u);
      } else {
        FallRests(h, u);
      }
    }

    /** `dt += delta`. */
    method AddTime(delta: nat)
      requires Valid()
      modifies this`dt
      ensures Valid() && Snap() == Tick(old(Snap()), delta)
    {
      dt := dt + delta;
    }

    /** `dt -= step`, when the accumulator exceeds the fall interval. */
    method TakeStep()
      requires Valid() && dt > step
      modifies this`dt
      ensures Valid() && Snap() == Spend(old(Snap()))
    {
      dt := dt - step;
    }

    // -------------------------------------------------------------------------
    // Session

    /**
     * `resetGame()`: a new empty board, zero counters, the starting fall
     * interval, two pieces drawn with random numbers u1 and u2 and an empty
     * queue.
     */
    method ResetGame(u1: Random, u2: Random)
      requires Valid()
      modifies this
      ensures Valid() && fresh(blocks)
      ensures Snap() == ResetW(old(Snap()), u1, u2)
    {
      ghost var w := Snap();
      BlankAll();
      DealPieces(u1, u2);
      ResetOk(w, u1, u2);
    }

    /** The board and the counters of `resetGame()`. */
    method BlankAll()
      modifies this`blocks, this`board, this`score, this`rows, this`step, this`dt, this`actions
      ensures Coupled() && fresh(blocks) && Snap() == Wiped(old(Snap()))
    {
      NewBoard();
      score, rows, step, dt := 0, 0, SPEED_START, 0;
      actions := [];
    }

    /** The two draws of `resetGame()`. */
    method DealPieces(u1: Random, u2: Random)
      modifies this`current, this`next, this`pool
      ensures Snap() == Dealt(old(Snap()), u1, u2)
    {
      current := NextPiece(u1);
      next := NextPiece(u2);
    }

    /** `blocks = Array.from({length: NX}, () => Array(NY).fill(null))`. */
    method NewBoard()
      modifies this`blocks, this`board
      ensures Coupled() && fresh(blocks) && board == EmptyBoard()
    {
      blocks := new Cell[NX, NY]((x, y) => Empty);
      board := EmptyBoard();
    }

    /** `startGame()`: reset, then PLAY. */
    method StartGame(u1: Random, u2: Random)
      requires Valid()
      modifies this
      ensures Valid() && fresh(blocks)
      ensures Snap() == StartW(old(Snap()), u1, u2)
      ensures Live(Snap())
    {
      ghost var w := Snap();
      ResetGame(u1, u2);
      state := Play;
      StartLive(w, u1, u2);
    }

    /** `resumeGame()`: PLAY. */
    method ResumeGame()
      modifies this`state
      ensures Snap() == ResumeW(old(Snap()))
    {
      state := Play;
    }

    /** `togglePause()`: PLAY pauses, PAUSE resumes, any other state is left alone. */
    method TogglePause()
      modifies this`state
      ensures Snap() == TogglePauseW(old(Snap()))
    {
      if state == Play {
        state := Pause;
      } else if state == Pause {
        ResumeGame();
      }
    }

    /** `showMenu()`: MENU. */
    method ShowMenu()
      modifies this`state
      ensures Snap() == ShowMenuW(old(Snap()))
    {
      state := Menu;
    }

    /**
     * The page's start: the high score read from storage, the menu shown.
     * The board and pieces are placeholders until the first `startGame`.
     */
    constructor (saved: nat)
      ensures Valid() && state == Menu && highscore == saved
      ensures board == EmptyBoard() && pool == [] && actions == [] && score == 0 && rows == 0
    {
      blocks := new Cell[NX, NY]((x, y) => Empty);
      current := Spawn(I);
      next := Spawn(I);
      pool := [];
      actions := [];
      score, rows, step, dt := 0, 0, SPEED_START, 0;
      state := Menu;
      highscore := saved;
      board := EmptyBoard();
      new;
      SpawnInBounds(I);
    }
  }
}
