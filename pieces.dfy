/**
 * Piece geometry: the seven tetromino kinds, their rotation masks and the
 * decoding of a mask into the cells of a 4x4 window (game.js `TETROMINOS`,
 * `eachBlock`).
 */
module Pieces {

  /** Columns of the board (`NX`); a new piece is centred on them. */
  const NX: nat := 10

  /** The seven piece kinds, the keys of the `TETROMINOS` table in table order. */
  datatype Kind = I | J | L | O | S | T | Z

  /** A rotation index; the source only ever stores 0..3. */
  type Dir = d: nat | d < 4

  /** A grid position or an offset inside the 4x4 window: column x, row y. */
  datatype Pos = Pos(x: int, y: int)

  /** The active or upcoming piece: kind, rotation and the window's top-left cell. */
  datatype Piece = Piece(kind: Kind, dir: Dir, x: int, y: int)

  /** Bounding-box size of a kind (`TETROMINOS[k].size`). */
  function Size(k: Kind): nat
  {
    match k
    case I => 4
    case O => 2
    case _ => 3
  }

  /** The 16-bit rotation masks of `TETROMINOS[k].blocks[d]`. */
  function Mask(k: Kind, d: Dir): bv16
  {
    match k
    case I => [0x0f00, 0x2222, 0x00f0, 0x4444][d]
    case J => [0x44c0, 0x8e00, 0x6440, 0x0e20][d]
    case L => [0x4460, 0x0e80, 0xc440, 0x2e00][d]
    case O => [0xcc00, 0xcc00, 0xcc00, 0xcc00][d]
    case S => [0x06c0, 0x8c40, 0x6c00, 0x4620][d]
    case T => [0x0e40, 0x4c40, 0x4e00, 0x4640][d]
    case Z => [0x0c60, 0x4c80, 0xc600, 0x2640][d]
  }

  /** The bit that `eachBlock` tests at scan step i: it starts at 0x8000 and shifts right. */
  function Bit(i: nat): bv16
    requires i < 16
  {
    0x8000 >> i
  }

  /** Shifting the scan bit right by one moves to the next scan step; after the last step it is zero. */
  lemma BitNext(i: nat)
    requires i < 16
    ensures Bit(i) >> 1 == if i + 1 < 16 then Bit(i + 1) else 0
    ensures Bit(i) != 0
  {
  }

  /** Column and row of the next scan step. */
  lemma StepNext(i: nat)
    ensures (i + 1) % 4 == if i % 4 == 3 then 0 else i % 4 + 1
    ensures (i + 1) / 4 == if i % 4 == 3 then i / 4 + 1 else i / 4
  {
  }

  predicate HasBit(m: bv16, i: nat)
    requires i < 16
  {
    m & Bit(i) != 0
  }

  /** Scan step i visits column i % 4 of row i / 4 of the window. */
  function StepPos(i: nat): Pos
  {
    Pos(i % 4, i / 4)
  }

  /**
   * The window offsets that `eachBlock` visits in its first n scan steps, in
   * visiting order (most significant bit first, row by row).
   */
  function Decode(m: bv16, n: nat): seq<Pos>
    requires n <= 16
  {
    if n == 0 then []
    else Decode(m, n - 1) + (if HasBit(m, n - 1) then [StepPos(n - 1)] else [])
  }

  /**
   * The window offsets of kind k in rotation d, written out in `eachBlock`
   * order; `OffsetsDecode` proves each list is the full scan of its mask.
   */
  function Offsets(k: Kind, d: Dir): seq<Pos>
  {
    match k
    case I => [[Pos(0, 1), Pos(1, 1), Pos(2, 1), Pos(3, 1)], [Pos(2, 0), Pos(2, 1), Pos(2, 2), Pos(2, 3)],
               [Pos(0, 2), Pos(1, 2), Pos(2, 2), Pos(3, 2)], [Pos(1, 0), Pos(1, 1), Pos(1, 2), Pos(1, 3)]][d]
    case J => [[Pos(1, 0), Pos(1, 1), Pos(0, 2), Pos(1, 2)], [Pos(0, 0), Pos(0, 1), Pos(1, 1), Pos(2, 1)],
               [Pos(1, 0), Pos(2, 0), Pos(1, 1), Pos(1, 2)], [Pos(0, 1), Pos(1, 1), Pos(2, 1), Pos(2, 2)]][d]
    case L => [[Pos(1, 0), Pos(1, 1), Pos(1, 2), Pos(2, 2)], [Pos(0, 1), Pos(1, 1), Pos(2, 1), Pos(0, 2)],
               [Pos(0, 0), Pos(1, 0), Pos(1, 1), Pos(1, 2)], [Pos(2, 0), Pos(0, 1), Pos(1, 1), Pos(2, 1)]][d]
    case O => [Pos(0, 0), Pos(1, 0), Pos(0, 1), Pos(1, 1)]
    case S => [[Pos(1, 1), Pos(2, 1), Pos(0, 2), Pos(1, 2)], [Pos(0, 0), Pos(0, 1), Pos(1, 1), Pos(1, 2)],
               [Pos(1, 0), Pos(2, 0), Pos(0, 1), Pos(1, 1)], [Pos(1, 0), Pos(1, 1), Pos(2, 1), Pos(2, 2)]][d]
    case T => [[Pos(0, 1), Pos(1, 1), Pos(2, 1), Pos(1, 2)], [Pos(1, 0), Pos(0, 1), Pos(1, 1), Pos(1, 2)],
               [Pos(1, 0), Pos(0, 1), Pos(1, 1), Pos(2, 1)], [Pos(1, 0), Pos(1, 1), Pos(2, 1), Pos(1, 2)]][d]
    case Z => [[Pos(0, 1), Pos(1, 1), Pos(1, 2), Pos(2, 2)], [Pos(1, 0), Pos(0, 1), Pos(1, 1), Pos(0, 2)],
               [Pos(0, 0), Pos(1, 0), Pos(1, 1), Pos(2, 1)], [Pos(2, 0), Pos(1, 1), Pos(2, 1), Pos(1, 2)]][d]
  }

  /** The board cells `eachBlock(p.type, p.x, p.y, p.dir, fn)` passes to `fn`, in order. */
  function Cells(p: Piece): (cs: seq<Pos>)
    ensures |cs| == |Offsets(p.kind, p.dir)|
    ensures forall i :: 0 <= i < |cs| ==>
              cs[i] == Pos(p.x + Offsets(p.kind, p.dir)[i].x, p.y + Offsets(p.kind, p.dir)[i].y)
  {
    var offs := Offsets(p.kind, p.dir);
    seq(|offs|, i requires 0 <= i < |offs| => Pos(p.x + offs[i].x, p.y + offs[i].y))
  }

  /** Spawn state of a freshly drawn kind: rotation 0, top row, horizontally centred (game.js:95). */
  function Spawn(k: Kind): (p: Piece)
    ensures p.kind == k && p.dir == 0 && p.y == 0
    ensures 2 * p.x <= NX - Size(k) < 2 * p.x + 2
  {
    Piece(k, 0, (NX - Size(k)) / 2, 0)
  }

  // ---------------------------------------------------------------------------
  // Properties of the decoding

  /** Offset q is visited in the first n scan steps: it lies in the window, its index is below n, its bit is set. */
  predicate Scanned(m: bv16, n: nat, q: Pos)
  {
    0 <= q.x < 4 && 0 <= q.y < 4 && 4 * q.y + q.x < n && 4 * q.y + q.x < 16 && HasBit(m, 4 * q.y + q.x)
  }

  /** Scan step i visits the window position whose index is i. */
  lemma StepPosIndex(i: nat, q: Pos)
    requires i < 16
    ensures StepPos(i) == q <==> 0 <= q.x < 4 && 0 <= q.y < 4 && 4 * q.y + q.x == i
  {
    assert i == 4 * (i / 4) + i % 4;
  }

  /**
   * An offset is visited in the first n steps exactly when it lies in the 4x4
   * window, its scan index is below n and the mask has that bit set.
   */
  lemma {:induction false} DecodeMembers(m: bv16, n: nat, q: Pos)
    requires n <= 16
    ensures q in Decode(m, n) <==> Scanned(m, n, q)
  {
    if n > 0 {
      DecodeMembers(m, n - 1, q);
      StepPosIndex(n - 1, q);
    }
  }

  /** One more scan step adds the offset of that step exactly when its bit is set. */
  lemma ScanStep(m: bv16, i: nat, q: Pos)
    requires i < 16
    ensures Scanned(m, i + 1, q) <==> Scanned(m, i, q) || (HasBit(m, i) && q == Pos(i % 4, i / 4))
  {
  }

  /** Offsets are visited in strictly increasing scan order, so no offset is visited twice. */
  lemma {:induction false} DecodeOrdered(m: bv16, n: nat)
    requires n <= 16
    ensures forall a, b :: 0 <= a < b < |Decode(m, n)| ==>
              4 * Decode(m, n)[a].y + Decode(m, n)[a].x < 4 * Decode(m, n)[b].y + Decode(m, n)[b].x
    ensures forall a :: 0 <= a < |Decode(m, n)| ==> 4 * Decode(m, n)[a].y + Decode(m, n)[a].x < n
  {
    if n > 0 {
      DecodeOrdered(m, n - 1);
      var prev := Decode(m, n - 1);
      var d := Decode(m, n);
      assert d[..|prev|] == prev;
      forall a | 0 <= a < |d| ensures 4 * d[a].y + d[a].x < n {
        if a >= |prev| { assert d[a] == StepPos(n - 1); }
      }
    }
  }

  /** Number of set bits in row r of the window (bits 4r .. 4r+3 of the scan). */
  function RowBits(m: bv16, r: nat): nat
    requires r < 4
  {
    (if HasBit(m, 4 * r) then 1 else 0) + (if HasBit(m, 4 * r + 1) then 1 else 0) +
    (if HasBit(m, 4 * r + 2) then 1 else 0) + (if HasBit(m, 4 * r + 3) then 1 else 0)
  }

  /** Scanning one more row of the window visits one offset per set bit of that row. */
  lemma DecodeRow(m: bv16, r: nat)
    requires r < 4
    ensures |Decode(m, 4 * r + 4)| == |Decode(m, 4 * r)| + RowBits(m, r)
  {
    var n := 4 * r;
    assert |Decode(m, n + 1)| == |Decode(m, n)| + (if HasBit(m, n) then 1 else 0);
    assert |Decode(m, n + 2)| == |Decode(m, n + 1)| + (if HasBit(m, n + 1) then 1 else 0);
    assert |Decode(m, n + 3)| == |Decode(m, n + 2)| + (if HasBit(m, n + 2) then 1 else 0);
    assert |Decode(m, n + 4)| == |Decode(m, n + 3)| + (if HasBit(m, n + 3) then 1 else 0);
  }

  /** A full scan visits one offset per set bit of the mask. */
  lemma DecodeLength(m: bv16)
    ensures |Decode(m, 16)| == RowBits(m, 0) + RowBits(m, 1) + RowBits(m, 2) + RowBits(m, 3)
  {
    DecodeRow(m, 0);
    DecodeRow(m, 1);
    DecodeRow(m, 2);
    DecodeRow(m, 3);
  }

  /** A mask with exactly four set bits. */
  predicate FourBits(m: bv16)
  {
    RowBits(m, 0) + RowBits(m, 1) + RowBits(m, 2) + RowBits(m, 3) == 4
  }

  // Each kind's four masks are checked by evaluation, one kind at a time.
  lemma FourBitsI() ensures forall d: Dir :: FourBits(Mask(I, d)) { }
  lemma FourBitsJ() ensures forall d: Dir :: FourBits(Mask(J, d)) { }
  lemma FourBitsL() ensures forall d: Dir :: FourBits(Mask(L, d)) { }
  lemma FourBitsO() ensures forall d: Dir :: FourBits(Mask(O, d)) { }
  lemma FourBitsS() ensures forall d: Dir :: FourBits(Mask(S, d)) { }
  lemma FourBitsT() ensures forall d: Dir :: FourBits(Mask(T, d)) { }
  lemma FourBitsZ() ensures forall d: Dir :: FourBits(Mask(Z, d)) { }

  /** Every one of the 28 masks of the table has exactly four set bits. */
  lemma TableFourBits(k: Kind, d: Dir)
    ensures FourBits(Mask(k, d))
  {
    match k {
      case I => FourBitsI();
      case J => FourBitsJ();
      case L => FourBitsL();
      case O => FourBitsO();
      case S => FourBitsS();
      case T => FourBitsT();
      case Z => FourBitsZ();
    }
  }

  /**
   * The square's four rotation masks are identical, so the scan of every
   * rotation visits the same cells as rotation 0 and rotating it never
   * changes its cells.
   */
  lemma SquareRotationInvariant(d: Dir)
    ensures Mask(O, d) == Mask(O, 0)
    ensures Decode(Mask(O, d), 16) == Decode(Mask(O, 0), 16)
    ensures Offsets(O, d) == Offsets(O, 0)
  {
    assert Mask(O, d) == 0xcc00;
    OffsetsDecode(O, d);
    OffsetsDecode(O, 0);
  }

  /** So the scan of every rotation of every kind visits exactly four offsets. */
  lemma MasksHaveFourCells(k: Kind, d: Dir)
    ensures |Decode(Mask(k, d), 16)| == 4
  {
    DecodeLength(Mask(k, d));
    TableFourBits(k, d);
  }

  /**
   * Every rotation of every kind covers exactly four distinct cells of its
   * 4x4 window.
   */
  lemma FourDistinctCells(k: Kind, d: Dir)
    ensures |Offsets(k, d)| == 4
    ensures forall i :: 0 <= i < 4 ==> 0 <= Offsets(k, d)[i].x < 4 && 0 <= Offsets(k, d)[i].y < 4
    ensures forall i, j :: 0 <= i < j < 4 ==> Offsets(k, d)[i] != Offsets(k, d)[j]
  {
    MasksHaveFourCells(k, d);
    OffsetsDecode(k, d);
    var m := Mask(k, d);
    DecodeOrdered(m, 16);
    forall i | 0 <= i < 4 ensures 0 <= Offsets(k, d)[i].x < 4 && 0 <= Offsets(k, d)[i].y < 4 {
      DecodeMembers(m, 16, Offsets(k, d)[i]);
    }
  }

  /** A board cell belongs to p exactly when its offset from p's window is one of p's offsets. */
  lemma CellsMembers(p: Piece, x: int, y: int)
    ensures Pos(x, y) in Cells(p) <==> Pos(x - p.x, y - p.y) in Offsets(p.kind, p.dir)
  {
    ShiftMembers(Offsets(p.kind, p.dir), Cells(p), p.x, p.y, Pos(x, y));
  }

  /** Membership in a list of offsets shifted by (x, y). */
  lemma ShiftMembers(offs: seq<Pos>, cs: seq<Pos>, x: int, y: int, q: Pos)
    requires |cs| == |offs|
    requires forall i :: 0 <= i < |cs| ==> cs[i] == Pos(x + offs[i].x, y + offs[i].y)
    ensures q in cs <==> Pos(q.x - x, q.y - y) in offs
  {
    if Pos(q.x - x, q.y - y) in offs {
      var i :| 0 <= i < |offs| && offs[i] == Pos(q.x - x, q.y - y);
      assert cs[i] == q;
    }
  }

  // ---------------------------------------------------------------------------
  // The offset table is the scan of the mask table

  /**
   * From scan step i on, the set bits of kind k's mask in rotation d visit
   * exactly the offsets Offsets(k, d)[j..], in order.
   */
  predicate Agrees(k: Kind, d: Dir, i: nat, j: nat)
    requires i <= 16
    decreases 16 - i
  {
    if i == 16 then j == |Offsets(k, d)|
    else if HasBit(Mask(k, d), i) then
      j < |Offsets(k, d)| && Offsets(k, d)[j] == StepPos(i) && Agrees(k, d, i + 1, j + 1)
    else Agrees(k, d, i + 1, j)
  }

  /** If the first i steps visited the first j offsets and the rest agree, the whole scan is the table entry. */
  lemma {:induction false} AgreesDecode(k: Kind, d: Dir, i: nat, j: nat)
    requires i <= 16 && j <= |Offsets(k, d)|
    requires Agrees(k, d, i, j) && Decode(Mask(k, d), i) == Offsets(k, d)[..j]
    ensures Decode(Mask(k, d), 16) == Offsets(k, d)
    decreases 16 - i
  {
    var o := Offsets(k, d);
    if i == 16 {
      assert o[..j] == o;
    } else if HasBit(Mask(k, d), i) {
      assert o[..j + 1] == o[..j] + [o[j]];
      AgreesDecode(k, d, i + 1, j + 1);
    } else {
      AgreesDecode(k, d, i + 1, j);
    }
  }

  // The 28 entries are checked by evaluation, row by row of the window.

  lemma AgreesI0() ensures Agrees(I, 0, 0, 0) {
    assert Agrees(I, 0, 12, 4) && Agrees(I, 0, 8, 4) && Agrees(I, 0, 4, 0);
  }
  lemma AgreesI1() ensures Agrees(I, 1, 0, 0) {
    assert Agrees(I, 1, 12, 3) && Agrees(I, 1, 8, 2) && Agrees(I, 1, 4, 1);
  }
  lemma AgreesI2() ensures Agrees(I, 2, 0, 0) {
    assert Agrees(I, 2, 12, 4) && Agrees(I, 2, 8, 0) && Agrees(I, 2, 4, 0);
  }
  lemma AgreesI3() ensures Agrees(I, 3, 0, 0) {
    assert Agrees(I, 3, 12, 3) && Agrees(I, 3, 8, 2) && Agrees(I, 3, 4, 1);
  }
  lemma AgreesJ0() ensures Agrees(J, 0, 0, 0) {
    assert Agrees(J, 0, 12, 4) && Agrees(J, 0, 8, 2) && Agrees(J, 0, 4, 1);
  }
  lemma AgreesJ1() ensures Agrees(J, 1, 0, 0) {
    assert Agrees(J, 1, 12, 4) && Agrees(J, 1, 8, 4) && Agrees(J, 1, 4, 1);
  }
  lemma AgreesJ2() ensures Agrees(J, 2, 0, 0) {
    assert Agrees(J, 2, 12, 4) && Agrees(J, 2, 8, 3) && Agrees(J, 2, 4, 2);
  }
  lemma AgreesJ3() ensures Agrees(J, 3, 0, 0) {
    assert Agrees(J, 3, 12, 4) && Agrees(J, 3, 8, 3) && Agrees(J, 3, 4, 0);
  }
  lemma AgreesL0() ensures Agrees(L, 0, 0, 0) {
    assert Agrees(L, 0, 12, 4) && Agrees(L, 0, 8, 2) && Agrees(L, 0, 4, 1);
  }
  lemma AgreesL1() ensures Agrees(L, 1, 0, 0) {
    assert Agrees(L, 1, 12, 4) && Agrees(L, 1, 8, 3) && Agrees(L, 1, 4, 0);
  }
  lemma AgreesL2() ensures Agrees(L, 2, 0, 0) {
    assert Agrees(L, 2, 12, 4) && Agrees(L, 2, 8, 3) && Agrees(L, 2, 4, 2);
  }
  lemma AgreesL3() ensures Agrees(L, 3, 0, 0) {
    assert Agrees(L, 3, 12, 4) && Agrees(L, 3, 8, 4) && Agrees(L, 3, 4, 1);
  }
  lemma AgreesO0() ensures Agrees(O, 0, 0, 0) {
    assert Agrees(O, 0, 12, 4) && Agrees(O, 0, 8, 4) && Agrees(O, 0, 4, 2);
  }
  lemma AgreesO1() ensures Agrees(O, 1, 0, 0) {
    assert Agrees(O, 1, 12, 4) && Agrees(O, 1, 8, 4) && Agrees(O, 1, 4, 2);
  }
  lemma AgreesO2() ensures Agrees(O, 2, 0, 0) {
    assert Agrees(O, 2, 12, 4) && Agrees(O, 2, 8, 4) && Agrees(O, 2, 4, 2);
  }
  lemma AgreesO3() ensures Agrees(O, 3, 0, 0) {
    assert Agrees(O, 3, 12, 4) && Agrees(O, 3, 8, 4) && Agrees(O, 3, 4, 2);
  }
  lemma AgreesS0() ensures Agrees(S, 0, 0, 0) {
    assert Agrees(S, 0, 12, 4) && Agrees(S, 0, 8, 2) && Agrees(S, 0, 4, 0);
  }
  lemma AgreesS1() ensures Agrees(S, 1, 0, 0) {
    assert Agrees(S, 1, 12, 4) && Agrees(S, 1, 8, 3) && Agrees(S, 1, 4, 1);
  }
  lemma AgreesS2() ensures Agrees(S, 2, 0, 0) {
    assert Agrees(S, 2, 12, 4) && Agrees(S, 2, 8, 4) && Agrees(S, 2, 4, 2);
  }
  lemma AgreesS3() ensures Agrees(S, 3, 0, 0) {
    assert Agrees(S, 3, 12, 4) && Agrees(S, 3, 8, 3) && Agrees(S, 3, 4, 1);
  }
  lemma AgreesT0() ensures Agrees(T, 0, 0, 0) {
    assert Agrees(T, 0, 12, 4) && Agrees(T, 0, 8, 3) && Agrees(T, 0, 4, 0);
  }
  lemma AgreesT1() ensures Agrees(T, 1, 0, 0) {
    assert Agrees(T, 1, 12, 4) && Agrees(T, 1, 8, 3) && Agrees(T, 1, 4, 1);
  }
  lemma AgreesT2() ensures Agrees(T, 2, 0, 0) {
    assert Agrees(T, 2, 12, 4) && Agrees(T, 2, 8, 4) && Agrees(T, 2, 4, 1);
  }
  lemma AgreesT3() ensures Agrees(T, 3, 0, 0) {
    assert Agrees(T, 3, 12, 4) && Agrees(T, 3, 8, 3) && Agrees(T, 3, 4, 1);
  }
  lemma AgreesZ0() ensures Agrees(Z, 0, 0, 0) {
    assert Agrees(Z, 0, 12, 4) && Agrees(Z, 0, 8, 2) && Agrees(Z, 0, 4, 0);
  }
  lemma AgreesZ1() ensures Agrees(Z, 1, 0, 0) {
    assert Agrees(Z, 1, 12, 4) && Agrees(Z, 1, 8, 3) && Agrees(Z, 1, 4, 1);
  }
  lemma AgreesZ2() ensures Agrees(Z, 2, 0, 0) {
    assert Agrees(Z, 2, 12, 4) && Agrees(Z, 2, 8, 4) && Agrees(Z, 2, 4, 2);
  }
  lemma AgreesZ3() ensures Agrees(Z, 3, 0, 0) {
    assert Agrees(Z, 3, 12, 4) && Agrees(Z, 3, 8, 3) && Agrees(Z, 3, 4, 1);
  }

  /** Every entry of the offset table is the full scan of the corresponding mask. */
  lemma OffsetsDecode(k: Kind, d: Dir)
    ensures Offsets(k, d) == Decode(Mask(k, d), 16)
  {
    match k {
    case I => if d == 0 { AgreesI0(); } else if d == 1 { AgreesI1(); } else if d == 2 { AgreesI2(); } else { AgreesI3(); }
    case J => if d == 0 { AgreesJ0(); } else if d == 1 { AgreesJ1(); } else if d == 2 { AgreesJ2(); } else { AgreesJ3(); }
    case L => if d == 0 { AgreesL0(); } else if d == 1 { AgreesL1(); } else if d == 2 { AgreesL2(); } else { AgreesL3(); }
    case O => if d == 0 { AgreesO0(); } else if d == 1 { AgreesO1(); } else if d == 2 { AgreesO2(); } else { AgreesO3(); }
    case S => if d == 0 { AgreesS0(); } else if d == 1 { AgreesS1(); } else if d == 2 { AgreesS2(); } else { AgreesS3(); }
    case T => if d == 0 { AgreesT0(); } else if d == 1 { AgreesT1(); } else if d == 2 { AgreesT2(); } else { AgreesT3(); }
    case Z => if d == 0 { AgreesZ0(); } else if d == 1 { AgreesZ1(); } else if d == 2 { AgreesZ2(); } else { AgreesZ3(); }
    }
    AgreesDecode(k, d, 0, 0);
  }

  /** An offset is listed for (k, d) exactly when the scan of the mask visits it. */
  lemma OffsetsScanned(k: Kind, d: Dir, q: Pos)
    ensures q in Offsets(k, d) <==> Scanned(Mask(k, d), 16, q)
  {
    OffsetsDecode(k, d);
    DecodeMembers(Mask(k, d), 16, q);
  }
}
