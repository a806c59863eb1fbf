/**
 * The board as a value: occupancy, placement, locking and line clearing
 * (game.js `occupied`, `canPlace`, the lock inside `drop`, `clearLines`).
 *
 * The source stores the board column-major, `blocks[x][y]`; this module views
 * it as a sequence of rows, top row first, so that `g[y][x]` is the cell in
 * column x of row y. The game object keeps the column-major array and relates
 * it to this view.
 */
module Board {
  import opened Pieces

  /** Rows of the board (`NY`); the columns, `NX`, are declared with the pieces. */
  const NY: nat := 20

  /** A cell is empty (`null`) or holds the kind of the piece locked into it. */
  datatype Cell = Empty | Filled(kind: Kind)

  type Row = seq<Cell>

  /** Every row has one cell per column. */
  predicate Sized(s: seq<Row>)
  {
    forall y :: 0 <= y < |s| ==> |s[y]| == NX
  }

  /** A whole board: NY rows of NX cells. */
  predicate WellShaped(g: seq<Row>)
  {
    |g| == NY && Sized(g)
  }

  function EmptyRow(): (r: Row)
    ensures |r| == NX && forall x :: 0 <= x < NX ==> r[x] == Empty
  {
    seq(NX, _ => Empty)
  }

  /** n empty rows. */
  function Blank(n: nat): (s: seq<Row>)
    ensures |s| == n && Sized(s)
    ensures forall y :: 0 <= y < n ==> s[y] == EmptyRow()
  {
    seq(n, _ => EmptyRow())
  }

  /** The board `resetGame` allocates: every cell `null`. */
  function EmptyBoard(): (g: seq<Row>)
    ensures WellShaped(g)
  {
    Blank(NY)
  }

  // ---------------------------------------------------------------------------
  // Occupancy and placement

  /** The cell in column x of row y; a position the rows do not have reads as empty. */
  function At(g: seq<Row>, x: int, y: int): Cell
  {
    if 0 <= y < |g| && 0 <= x < |g[y]| then g[y][x] else Empty
  }

  /** `occupied(x, y)`: everything outside the board, above it included, counts as occupied. */
  predicate Occupied(g: seq<Row>, x: int, y: int)
  {
    x < 0 || x >= NX || y < 0 || y >= NY || At(g, x, y) != Empty
  }

  /** No cell of cs is occupied: the callback of `canPlace` never clears `ok` while visiting cs. */
  predicate Free(g: seq<Row>, cs: seq<Pos>)
  {
    cs == [] || (!Occupied(g, cs[0].x, cs[0].y) && Free(g, cs[1..]))
  }

  /** `canPlace(p)`: none of the cells `eachBlock` visits for p is occupied. */
  predicate CanPlace(g: seq<Row>, p: Piece)
  {
    Free(g, Cells(p))
  }

  /** Every cell of cs lies on the board. */
  predicate OnBoard(cs: seq<Pos>)
  {
    cs == [] || (0 <= cs[0].x < NX && 0 <= cs[0].y < NY && OnBoard(cs[1..]))
  }

  /** Every cell of p lies on the board. */
  predicate InBounds(p: Piece)
  {
    OnBoard(Cells(p))
  }

  /** The cells are free exactly when no single one of them is occupied. */
  lemma {:induction false} FreeAt(g: seq<Row>, cs: seq<Pos>)
    ensures Free(g, cs) <==> forall i :: 0 <= i < |cs| ==> !Occupied(g, cs[i].x, cs[i].y)
  {
    if cs != [] {
      FreeAt(g, cs[1..]);
      assert forall i :: 1 <= i < |cs| ==> cs[i] == cs[1..][i - 1];
    }
  }

  /** The cells are on the board exactly when each one of them is. */
  lemma {:induction false} OnBoardAt(cs: seq<Pos>)
    ensures OnBoard(cs) <==> forall i :: 0 <= i < |cs| ==> 0 <= cs[i].x < NX && 0 <= cs[i].y < NY
  {
    if cs != [] {
      OnBoardAt(cs[1..]);
      assert forall i :: 1 <= i < |cs| ==> cs[i] == cs[1..][i - 1];
    }
  }

  /** Free cells are on the board: everything off the board counts as occupied. */
  lemma {:induction false} FreeOnBoard(g: seq<Row>, cs: seq<Pos>)
    requires Free(g, cs)
    ensures OnBoard(cs)
  {
    if cs != [] {
      FreeOnBoard(g, cs[1..]);
    }
  }

  /**
   * A piece can be placed exactly when each of its four distinct cells is on
   * the board and empty.
   */
  lemma CanPlaceIff(g: seq<Row>, p: Piece)
    requires WellShaped(g)
    ensures |Cells(p)| == 4
    ensures forall i, j :: 0 <= i < j < 4 ==> Cells(p)[i] != Cells(p)[j]
    ensures CanPlace(g, p) <==>
              forall q :: q in Cells(p) ==> 0 <= q.x < NX && 0 <= q.y < NY && g[q.y][q.x] == Empty
  {
    FourDistinctCells(p.kind, p.dir);
    FreeAt(g, Cells(p));
    if CanPlace(g, p) {
      forall q | q in Cells(p) ensures 0 <= q.x < NX && 0 <= q.y < NY && g[q.y][q.x] == Empty {
        var i :| 0 <= i < |Cells(p)| && Cells(p)[i] == q;
        assert !Occupied(g, Cells(p)[i].x, Cells(p)[i].y);
      }
    }
  }

  /** A placeable piece lies on the board, whatever the board holds. */
  lemma CanPlaceInBounds(g: seq<Row>, p: Piece)
    requires CanPlace(g, p)
    ensures InBounds(p)
  {
    FreeOnBoard(g, Cells(p));
  }

  /** A spawned piece lies on the board: rows 0..3, columns 3..6 (or 4..7 for the square). */
  lemma SpawnInBounds(k: Kind)
    ensures InBounds(Spawn(k))
  {
    var p := Spawn(k);
    FourDistinctCells(k, 0);
    assert 3 <= p.x <= 4;
    OnBoardAt(Cells(p));
  }

  /** Every spawn is placeable on the empty board (game.js:79, 95). */
  lemma SpawnFitsEmptyBoard(k: Kind)
    ensures CanPlace(EmptyBoard(), Spawn(k))
  {
    SpawnInBounds(k);
    var cs := Cells(Spawn(k));
    OnBoardAt(cs);
    FreeAt(EmptyBoard(), cs);
  }

  // ---------------------------------------------------------------------------
  // Locking

  /**
   * g with cell (x, y) set to v. A position the rows do not have is left
   * alone; every write of the lock lands on the board, because the active
   * piece lies on the board in every state (`ScanInBounds`).
   */
  function SetCell(g: seq<Row>, x: int, y: int, v: Cell): (g': seq<Row>)
    ensures |g'| == |g| && (Sized(g) ==> Sized(g'))
  {
    if 0 <= y < |g| && 0 <= x < |g[y]| then g[y := g[y][x := v]] else g
  }

  /** Writes v into the cells cs one after another, as the `eachBlock` callback of the lock does. */
  function Paint(g: seq<Row>, cs: seq<Pos>, v: Cell): (g': seq<Row>)
    ensures |g'| == |g| && (Sized(g) ==> Sized(g'))
  {
    if cs == [] then g
    else
      var last := cs[|cs| - 1];
      SetCell(Paint(g, cs[..|cs| - 1], v), last.x, last.y, v)
  }

  /** The lock at game.js:151: every cell of p receives p's kind. */
  function Lock(g: seq<Row>, p: Piece): (g': seq<Row>)
    ensures WellShaped(g) ==> WellShaped(g')
  {
    Paint(g, Cells(p), Filled(p.kind))
  }

  lemma {:induction false} PaintAt(g: seq<Row>, cs: seq<Pos>, v: Cell, x: int, y: int)
    requires WellShaped(g)
    requires forall i :: 0 <= i < |cs| ==> 0 <= cs[i].x < NX && 0 <= cs[i].y < NY
    requires 0 <= x < NX && 0 <= y < NY
    ensures Paint(g, cs, v)[y][x] == if Pos(x, y) in cs then v else g[y][x]
  {
    if cs != [] {
      var init := cs[..|cs| - 1];
      PaintAt(g, init, v, x, y);
      assert cs == init + [cs[|cs| - 1]];
    }
  }

  /** Locking writes p's kind into exactly the cells of p and leaves every other cell alone. */
  lemma LockAt(g: seq<Row>, p: Piece, x: int, y: int)
    requires WellShaped(g) && InBounds(p)
    requires 0 <= x < NX && 0 <= y < NY
    ensures Lock(g, p)[y][x] == if Pos(x, y) in Cells(p) then Filled(p.kind) else g[y][x]
  {
    OnBoardAt(Cells(p));
    PaintAt(g, Cells(p), Filled(p.kind), x, y);
  }

  /** The cell that scan step i of a placed piece writes lies on the board and belongs to the piece. */
  lemma CellOfBit(p: Piece, i: nat)
    requires i < 16 && InBounds(p) && HasBit(Mask(p.kind, p.dir), i)
    ensures 0 <= p.x + i % 4 < NX && 0 <= p.y + i / 4 < NY
    ensures Pos(p.x + i % 4, p.y + i / 4) in Cells(p)
  {
    var q := Pos(p.x + i % 4, p.y + i / 4);
    OnBoardAt(Cells(p));
    OffsetsScanned(p.kind, p.dir, Pos(i % 4, i / 4));
    CellsMembers(p, q.x, q.y);
    var k :| 0 <= k < |Cells(p)| && Cells(p)[k] == q;
  }

  /** Every cell the scan of a placed piece writes lies on the board. */
  lemma ScanInBounds(p: Piece)
    requires InBounds(p)
    ensures forall j :: 0 <= j < 16 && HasBit(Mask(p.kind, p.dir), j) ==> 0 <= p.x + j % 4 < NX && 0 <= p.y + j / 4 < NY
  {
    forall j | 0 <= j < 16 && HasBit(Mask(p.kind, p.dir), j)
      ensures 0 <= p.x + j % 4 < NX && 0 <= p.y + j / 4 < NY
    {
      CellOfBit(p, j);
    }
  }

  /** The lock in terms of the scan: a cell receives p's kind exactly when its window offset has its bit set. */
  lemma LockAtScan(g: seq<Row>, p: Piece, x: int, y: int)
    requires WellShaped(g) && InBounds(p)
    requires 0 <= x < NX && 0 <= y < NY
    ensures Lock(g, p)[y][x] ==
              if Scanned(Mask(p.kind, p.dir), 16, Pos(x - p.x, y - p.y)) then Filled(p.kind) else g[y][x]
  {
    var q := Pos(x - p.x, y - p.y);
    var offs := Offsets(p.kind, p.dir);
    OffsetsScanned(p.kind, p.dir, q);
    assert q in offs <==> Scanned(Mask(p.kind, p.dir), 16, q);
    CellsMembers(p, x, y);
    assert Pos(x, y) in Cells(p) <==> q in offs;
    LockAt(g, p, x, y);
  }

  // ---------------------------------------------------------------------------
  // Counting occupied cells

  function RowCount(r: Row): nat
  {
    if r == [] then 0 else (if r[0] != Empty then 1 else 0) + RowCount(r[1..])
  }

  /** The number of occupied cells in a sequence of rows. */
  function CellCount(s: seq<Row>): nat
  {
    if s == [] then 0 else RowCount(s[0]) + CellCount(s[1..])
  }

  lemma {:induction false} CellCountAppend(a: seq<Row>, b: seq<Row>)
    ensures CellCount(a + b) == CellCount(a) + CellCount(b)
  {
    if a == [] {
      assert a + b == b;
    } else {
      CellCountAppend(a[1..], b);
      assert (a + b)[0] == a[0] && (a + b)[1..] == a[1..] + b;
    }
  }

  lemma {:induction false} RowCountSet(r: Row, x: nat, v: Cell)
    requires x < |r| && r[x] == Empty && v != Empty
    ensures RowCount(r[x := v]) == RowCount(r) + 1
  {
    if x > 0 {
      RowCountSet(r[1..], x - 1, v);
      assert r[x := v][1..] == r[1..][x - 1 := v];
    }
  }

  lemma {:induction false} CellCountSet(s: seq<Row>, x: nat, y: nat, v: Cell)
    requires y < |s| && x < |s[y]| && s[y][x] == Empty && v != Empty
    ensures CellCount(s[y := s[y][x := v]]) == CellCount(s) + 1
  {
    if y == 0 {
      RowCountSet(s[0], x, v);
      assert s[y := s[y][x := v]][1..] == s[1..];
    } else {
      CellCountSet(s[1..], x, y - 1, v);
      assert s[y := s[y][x := v]][1..] == s[1..][y - 1 := s[y][x := v]];
    }
  }

  /** Painting distinct empty cells with a non-empty value adds one occupied cell per cell painted. */
  lemma {:induction false} PaintCount(g: seq<Row>, cs: seq<Pos>, v: Cell)
    requires WellShaped(g) && v != Empty
    requires forall i :: 0 <= i < |cs| ==> 0 <= cs[i].x < NX && 0 <= cs[i].y < NY
    requires forall i :: 0 <= i < |cs| ==> g[cs[i].y][cs[i].x] == Empty
    requires forall i, j :: 0 <= i < j < |cs| ==> cs[i] != cs[j]
    ensures CellCount(Paint(g, cs, v)) == CellCount(g) + |cs|
  {
    if cs != [] {
      var init, last := cs[..|cs| - 1], cs[|cs| - 1];
      PaintCount(g, init, v);
      PaintAt(g, init, v, last.x, last.y);
      CellCountSet(Paint(g, init, v), last.x, last.y, v);
    }
  }

  /** Locking a placeable piece adds exactly four occupied cells. */
  lemma LockAddsFour(g: seq<Row>, p: Piece)
    requires WellShaped(g) && CanPlace(g, p)
    ensures InBounds(p)
    ensures CellCount(Lock(g, p)) == CellCount(g) + 4
  {
    CanPlaceIff(g, p);
    CanPlaceInBounds(g, p);
    var cs := Cells(p);
    OnBoardAt(cs);
    forall i | 0 <= i < |cs| ensures g[cs[i].y][cs[i].x] == Empty {
      assert cs[i] in cs;
    }
    PaintCount(g, cs, Filled(p.kind));
  }

  /** Locking a piece that lies on the board adds four cells when the piece was placeable. */
  lemma LockCount(g: seq<Row>, p: Piece)
    requires WellShaped(g) && InBounds(p)
    ensures CanPlace(g, p) ==> CellCount(Lock(g, p)) == CellCount(g) + 4
  {
    if CanPlace(g, p) {
      LockAddsFour(g, p);
    }
  }

  // ---------------------------------------------------------------------------
  // Line clearing

  /** A row is complete when every column is occupied (`blocks.every(col => col[y])`). */
  predicate Full(r: Row)
  {
    forall x :: 0 <= x < |r| ==> r[x] != Empty
  }

  /** The rows that are not complete, in their original order. */
  function Kept(s: seq<Row>): seq<Row>
  {
    if s == [] then [] else (if Full(s[0]) then [] else [s[0]]) + Kept(s[1..])
  }

  /** The number of complete rows. */
  function CountFull(s: seq<Row>): nat
  {
    if s == [] then 0 else (if Full(s[0]) then 1 else 0) + CountFull(s[1..])
  }

  /**
   * The board after every complete row is removed and the rest settle:
   * one empty row on top for each removed row, then the kept rows in order.
   */
  function Cleared(g: seq<Row>): seq<Row>
  {
    Blank(CountFull(g)) + Kept(g)
  }

  /** Filtering distributes over concatenation. */
  lemma {:induction false} KeptAppend(a: seq<Row>, b: seq<Row>)
    ensures Kept(a + b) == Kept(a) + Kept(b)
  {
    if a == [] {
      assert a + b == b;
    } else {
      var ab := a + b;
      assert ab[0] == a[0] && ab[1..] == a[1..] + b;
      KeptAppend(a[1..], b);
      var head := if Full(a[0]) then [] else [a[0]];
      assert Kept(ab) == head + Kept(a[1..] + b);
      assert Kept(a) == head + Kept(a[1..]);
    }
  }

  /** Counting complete rows distributes over concatenation. */
  lemma {:induction false} CountFullAppend(a: seq<Row>, b: seq<Row>)
    ensures CountFull(a + b) == CountFull(a) + CountFull(b)
  {
    if a == [] {
      assert a + b == b;
    } else {
      var ab := a + b;
      assert ab[0] == a[0] && ab[1..] == a[1..] + b;
      CountFullAppend(a[1..], b);
      var head := if Full(a[0]) then 1 else 0;
      assert CountFull(ab) == head + CountFull(a[1..] + b);
      assert CountFull(a) == head + CountFull(a[1..]);
    }
  }

  /** Filtering keeps every row that is not complete and drops exactly the complete ones. */
  lemma {:induction false} KeptShape(s: seq<Row>)
    ensures |Kept(s)| + CountFull(s) == |s|
    ensures forall y :: 0 <= y < |Kept(s)| ==> !Full(Kept(s)[y]) && Kept(s)[y] in s
    ensures forall y :: 0 <= y < |s| && !Full(s[y]) ==> s[y] in Kept(s)
    ensures Sized(s) ==> Sized(Kept(s))
  {
    if s != [] {
      KeptShape(s[1..]);
      forall y | 0 <= y < |s| && !Full(s[y]) ensures s[y] in Kept(s) {
        if y > 0 {
          assert s[y] == s[1..][y - 1];
        }
      }
    }
  }

  /** Rows of NX cells: a complete one holds NX occupied cells. */
  lemma {:induction false} FullRowCount(r: Row)
    requires Full(r)
    ensures RowCount(r) == |r|
  {
    if r != [] {
      FullRowCount(r[1..]);
    }
  }

  /** A row with no occupied cell counts none. */
  lemma {:induction false} EmptyRowCount(r: Row)
    requires forall x :: 0 <= x < |r| ==> r[x] == Empty
    ensures RowCount(r) == 0
  {
    if r != [] {
      assert forall x :: 0 <= x < |r[1..]| ==> r[1..][x] == r[x + 1];
      EmptyRowCount(r[1..]);
    }
  }

  lemma {:induction false} BlankCount(n: nat)
    ensures CellCount(Blank(n)) == 0
  {
    if n > 0 {
      EmptyRowCount(EmptyRow());
      BlankCount(n - 1);
      assert Blank(n)[1..] == Blank(n - 1);
    }
  }

  lemma {:induction false} KeptCount(s: seq<Row>)
    requires Sized(s)
    ensures CellCount(Kept(s)) + NX * CountFull(s) == CellCount(s)
  {
    if s != [] {
      KeptCount(s[1..]);
      if Full(s[0]) {
        FullRowCount(s[0]);
        assert Kept(s) == Kept(s[1..]);
      } else {
        assert Kept(s) == [s[0]] + Kept(s[1..]);
        CellCountAppend([s[0]], Kept(s[1..]));
      }
    }
  }

  /** Clearing removes NX occupied cells per complete row and changes nothing else in the count. */
  lemma ClearedCount(g: seq<Row>)
    requires Sized(g)
    ensures CellCount(Cleared(g)) + NX * CountFull(g) == CellCount(g)
  {
    CellCountAppend(Blank(CountFull(g)), Kept(g));
    BlankCount(CountFull(g));
    KeptCount(g);
  }

  /** After clearing the board keeps its shape and no row is complete. */
  lemma ClearedNoFullRow(g: seq<Row>)
    requires WellShaped(g)
    ensures WellShaped(Cleared(g))
    ensures forall y :: 0 <= y < NY ==> !Full(Cleared(g)[y])
    ensures CountFull(Cleared(g)) == 0
  {
    KeptShape(g);
    var c := CountFull(g);
    var h := Cleared(g);
    forall y | 0 <= y < NY ensures !Full(h[y]) {
      if y < c {
        assert h[y][0] == Empty;
      } else {
        assert h[y] == Kept(g)[y - c];
      }
    }
    NoFullRowCount(h);
  }

  lemma {:induction false} NoFullRowCount(s: seq<Row>)
    requires forall y :: 0 <= y < |s| ==> !Full(s[y])
    ensures CountFull(s) == 0 && Kept(s) == s
  {
    if s != [] {
      NoFullRowCount(s[1..]);
    }
  }

  /** Clearing a board without complete rows changes nothing; in particular clearing twice is clearing once. */
  lemma ClearedIdempotent(g: seq<Row>)
    requires WellShaped(g)
    ensures CountFull(g) == 0 ==> Cleared(g) == g
    ensures Cleared(Cleared(g)) == Cleared(g)
  {
    if CountFull(g) == 0 {
      NoFullRows(g);
      NoFullRowCount(g);
    }
    ClearedNoFullRow(g);
    var h := Cleared(g);
    NoFullRowCount(h);
  }

  lemma {:induction false} NoFullRows(s: seq<Row>)
    requires CountFull(s) == 0
    ensures forall y :: 0 <= y < |s| ==> !Full(s[y])
  {
    if s != [] {
      NoFullRows(s[1..]);
      forall y | 0 <= y < |s| ensures !Full(s[y]) {
        if y > 0 { assert s[y] == s[1..][y - 1]; }
      }
    }
  }

  /**
   * Gravity: a row that is not complete moves down by the number of complete
   * rows below it (with rows 3 and 7 complete, rows above 7 move by two and
   * rows between 3 and 7 by one).
   */
  lemma RowSettles(g: seq<Row>, y: nat)
    requires y < |g| && !Full(g[y])
    ensures y + CountFull(g[y + 1..]) < |Cleared(g)|
    ensures Cleared(g)[y + CountFull(g[y + 1..])] == g[y]
  {
    var above, below := g[..y], g[y + 1..];
    assert g == above + [g[y]] + below;
    KeptAppend(above + [g[y]], below);
    KeptAppend(above, [g[y]]);
    CountFullAppend(above + [g[y]], below);
    CountFullAppend(above, [g[y]]);
    assert Kept([g[y]]) == [g[y]];
    assert CountFull([g[y]]) == 0;
    KeptShape(above);
    KeptShape(below);
    assert Kept(g) == Kept(above) + [g[y]] + Kept(below);
  }

  // ---------------------------------------------------------------------------
  // The board while `clearLines` is at work

  /**
   * The board while `clearLines` scans upwards: c complete rows already
   * removed (c empty rows on top), the first j rows of the original o not yet
   * examined, and below them the kept rows of the part already examined.
   */
  function Pending(o: seq<Row>, c: nat, j: nat): seq<Row>
    requires j <= |o|
  {
    Blank(c) + o[..j] + Kept(o[j..])
  }

  lemma PendingStart(o: seq<Row>)
    ensures Pending(o, 0, |o|) == o
  {
    assert o[|o|..] == [];
  }

  lemma PendingEnd(o: seq<Row>)
    ensures Pending(o, CountFull(o), 0) == Cleared(o)
  {
    assert o[0..] == o;
  }

  /** The row the scan examines is the next unexamined original row, or an empty row once none is left. */
  lemma PendingRow(o: seq<Row>, c: nat, j: nat, y: nat)
    requires j <= |o| && y < c + j
    ensures y < |Pending(o, c, j)|
    ensures Pending(o, c, j)[y] == if y < c then EmptyRow() else o[y - c]
    ensures y < c ==> !Full(Pending(o, c, j)[y])
  {
    if y < c {
      assert Pending(o, c, j)[y][0] == Empty;
    }
  }

  /** Row z after removing row y: the empty row on top, the rows above y moved down by one, the rest in place. */
  lemma ShiftedAt(g: seq<Row>, y: nat, z: nat, x: nat)
    requires WellShaped(g) && y < NY && z < NY && x < NX
    ensures WellShaped([EmptyRow()] + g[..y] + g[y + 1..])
    ensures ([EmptyRow()] + g[..y] + g[y + 1..])[z][x] ==
              if z == 0 then Empty else if z <= y then g[z - 1][x] else g[z][x]
  {
  }

  /** Removing a complete row: shift everything above it down by one and empty the top row. */
  lemma {:induction false} PendingFull(o: seq<Row>, c: nat, j: nat)
    requires 0 < j <= |o| && Full(o[j - 1])
    ensures c + j - 1 < |Pending(o, c, j)|
    ensures [EmptyRow()] + Pending(o, c, j)[..c + j - 1] + Pending(o, c, j)[c + j..] == Pending(o, c + 1, j - 1)
    ensures CountFull(o[j - 1..]) == CountFull(o[j..]) + 1
  {
    var p := Pending(o, c, j);
    assert o[j - 1..] == [o[j - 1]] + o[j..];
    KeptAppend([o[j - 1]], o[j..]);
    CountFullAppend([o[j - 1]], o[j..]);
    assert Kept([o[j - 1]]) == [] && CountFull([o[j - 1]]) == 1;
    assert p[..c + j - 1] == Blank(c) + o[..j - 1];
    assert p[c + j..] == Kept(o[j..]);
    assert [EmptyRow()] + Blank(c) == Blank(c + 1);
  }

  /** Passing over a row that is not complete moves it from the unexamined to the kept part. */
  lemma {:induction false} PendingKeep(o: seq<Row>, c: nat, j: nat)
    requires 0 < j <= |o| && !Full(o[j - 1])
    ensures Pending(o, c, j) == Pending(o, c, j - 1)
    ensures CountFull(o[j - 1..]) == CountFull(o[j..])
  {
    assert o[j - 1..] == [o[j - 1]] + o[j..];
    KeptAppend([o[j - 1]], o[j..]);
    CountFullAppend([o[j - 1]], o[j..]);
    assert Kept([o[j - 1]]) == [o[j - 1]] && CountFull([o[j - 1]]) == 0;
    assert o[..j] == o[..j - 1] + [o[j - 1]];
  }
}
