/** The three start triangles written out cell by cell. */
module StartCells {
  import opened Hex

  /** The cells of start triangle 1, listed. */
  function TriangleOneCells(): set<Coor> {
    {Coor(0, -4), Coor(1, -5), Coor(1, -4), Coor(2, -6), Coor(2, -5), Coor(2, -4), Coor(3, -7), Coor(3, -6), Coor(3, -5), Coor(3, -4), Coor(4, -8), Coor(4, -7), Coor(4, -6), Coor(4, -5), Coor(4, -4)}
  }

  lemma TriangleOneCount()
    ensures |TriangleOneCells()| == 15
  {
  }

  /** The cells of start triangle 2, listed. */
  function TriangleTwoCells(): set<Coor> {
    {Coor(-8, 4), Coor(-7, 3), Coor(-7, 4), Coor(-6, 2), Coor(-6, 3), Coor(-6, 4), Coor(-5, 1), Coor(-5, 2), Coor(-5, 3), Coor(-5, 4), Coor(-4, 0), Coor(-4, 1), Coor(-4, 2), Coor(-4, 3), Coor(-4, 4)}
  }

  lemma TriangleTwoCount()
    ensures |TriangleTwoCells()| == 15
  {
  }

  /** The cells of start triangle 3, listed. */
  function TriangleThreeCells(): set<Coor> {
    {Coor(0, 4), Coor(1, 3), Coor(1, 4), Coor(2, 2), Coor(2, 3), Coor(2, 4), Coor(3, 1), Coor(3, 2), Coor(3, 3), Coor(3, 4), Coor(4, 0), Coor(4, 1), Coor(4, 2), Coor(4, 3), Coor(4, 4)}
  }

  lemma TriangleThreeCount()
    ensures |TriangleThreeCells()| == 15
  {
  }
}

/** The star-shaped board that `Game.createBoard` builds: seven regions,
    each the cells (p, q) of a 5x5 (or, for the neutral hexagon, 7x7)
    range of axial coordinates cut by a bound on p + q. */
module Layout {
  import opened Hex
  import opened StartCells

  /** The `continue` test of each fill loop, as the cells it keeps. */
  datatype SumRule = AtMost(k: int) | AtLeast(k: int) | Within(lo: int, hi: int)

  /** p in range(pLo, pHi), q in range(qLo, qHi), p + q kept by rule. */
  datatype Region = Region(pLo: int, pHi: int, qLo: int, qHi: int, rule: SumRule)

  predicate Keeps(rule: SumRule, s: int) {
    match rule
    case AtMost(k) => s <= k
    case AtLeast(k) => s >= k
    case Within(lo, hi) => lo <= s <= hi
  }

  predicate InRegion(r: Region, c: Coor) {
    r.pLo <= c.p < r.pHi && r.qLo <= c.q < r.qHi && Keeps(r.rule, c.p + c.q)
  }

  predicate Ranges(r: Region) {
    r.pLo <= r.pHi && r.qLo <= r.qHi
  }

  /** The cells of r as a set. */
  function Cells(r: Region): (s: set<Coor>)
    ensures forall c :: c in s <==> InRegion(r, c)
  {
    set p, q | r.pLo <= p < r.pHi && r.qLo <= q < r.qHi && Keeps(r.rule, p + q) :: Coor(p, q)
  }

  /** The triangle that createBoard fills with player n's pieces. */
  function StartTriangle(n: int): Region {
    if n == 1 then Region(0, 5, -8, -3, AtLeast(-4))
    else if n == 2 then Region(-8, -3, 0, 5, AtLeast(-4))
    else Region(0, 5, 0, 5, AtLeast(4))
  }

  /** The triangle opposite player n's start triangle, built empty. */
  function OppositeTriangle(n: int): Region {
    if n == 1 then Region(-4, 1, 4, 9, AtMost(4))
    else if n == 2 then Region(4, 9, -4, 1, AtMost(4))
    else Region(-4, 1, -4, 1, AtMost(-4))
  }

  /** The central hexagon, built empty. */
  const NeutralHexagon := Region(-3, 4, -3, 4, Within(-3, 3))

  /** The cells of the board, whatever the player count. */
  predicate OnBoard(c: Coor) {
    InRegion(NeutralHexagon, c) ||
    exists n :: 1 <= n <= 3 && (InRegion(StartTriangle(n), c) || InRegion(OppositeTriangle(n), c))
  }

  /** The start triangles and the neutral hexagon do not overlap, so no
      later fill loop of createBoard overwrites a placed piece. */
  lemma StartTrianglesApart(c: Coor)
    ensures forall n, m :: 1 <= n <= 3 && 1 <= m <= 3 && n != m && InRegion(StartTriangle(n), c)
              ==> !InRegion(StartTriangle(m), c)
    ensures forall n :: 1 <= n <= 3 && InRegion(StartTriangle(n), c) ==> !InRegion(NeutralHexagon, c)
  {
  }

  /** Each start triangle holds 15 cells. */
  lemma StartTriangleSize(n: int)
    requires 1 <= n <= 3
    ensures |Cells(StartTriangle(n))| == 15
  {
    if n == 1 { TriangleOneSize(); } else if n == 2 { TriangleTwoSize(); } else { TriangleThreeSize(); }
  }

  lemma TriangleOneListed()
    ensures Cells(StartTriangle(1)) == TriangleOneCells()
  {
    var e := set p, q | 0 <= p < 5 && -8 <= q < -3 && p + q >= -4 :: Coor(p, q);
    assert e <= TriangleOneCells();
    assert TriangleOneCells() <= e;
    assert Cells(StartTriangle(1)) == e;
  }

  lemma TriangleOneSize()
    ensures |Cells(StartTriangle(1))| == 15
  {
    TriangleOneListed();
    TriangleOneCount();
  }

  lemma TriangleTwoListed()
    ensures Cells(StartTriangle(2)) == TriangleTwoCells()
  {
    var e := set p, q | -8 <= p < -3 && 0 <= q < 5 && p + q >= -4 :: Coor(p, q);
    assert e <= TriangleTwoCells();
    assert TriangleTwoCells() <= e;
    assert Cells(StartTriangle(2)) == e;
  }

  lemma TriangleTwoSize()
    ensures |Cells(StartTriangle(2))| == 15
  {
    TriangleTwoListed();
    TriangleTwoCount();
  }

  lemma TriangleThreeListed()
    ensures Cells(StartTriangle(3)) == TriangleThreeCells()
  {
    var e := set p, q | 0 <= p < 5 && 0 <= q < 5 && p + q >= 4 :: Coor(p, q);
    assert e <= TriangleThreeCells();
    assert TriangleThreeCells() <= e;
    assert Cells(StartTriangle(3)) == e;
  }

  lemma TriangleThreeSize()
    ensures |Cells(StartTriangle(3))| == 15
  {
    TriangleThreeListed();
    TriangleThreeCount();
  }

  /** A cell that holds a piece right after createBoard(count): the start
      triangles of players 1 and 2, and that of player 3 unless count is 2. */
  predicate InitiallyOccupied(c: Coor, count: int) {
    InRegion(StartTriangle(1), c) || InRegion(StartTriangle(2), c) ||
    (count != 2 && InRegion(StartTriangle(3), c))
  }

  /** The pieces standing on the cells of region r of board b. */
  ghost function PiecesIn(b: Board, r: Region): set<Piece>
  {
    PiecesOn(b, Cells(r))
  }

  /** The pieces standing on the cells in cs. */
  ghost function PiecesOn(b: Board, cs: set<Coor>): set<Piece>
  {
    set c | c in cs && c in b && b[c].Holds? :: b[c].piece
  }

  /** Each piece on b records the cell it stands on. */
  ghost predicate Homed(b: Board)
    reads set c | c in b && b[c].Holds? :: b[c].piece
  {
    forall c :: c in b && b[c].Holds? ==> b[c].piece.coor == c
  }

  /** The shape of the board createBoard(count) returns: its key set does
      not depend on count; exactly the initially occupied cells hold pieces;
      each piece in start triangle n belongs to player n. */
  ghost predicate InitialShape(b: Board, count: int) {
    (forall c :: c in b <==> OnBoard(c)) &&
    (forall c :: c in b ==> (b[c].Holds? <==> InitiallyOccupied(c, count))) &&
    (forall n, c :: 1 <= n <= 3 && InRegion(StartTriangle(n), c) && c in b && b[c].Holds? ==> b[c].piece.owner == n)
  }

  /** A fill loop of the form `if (p,q) not in Board: Board[(p,q)] = None`
      over the cells of r: it adds the missing cells as empty and leaves
      every existing cell as it was. */
  method FillIfAbsent(b: Board, r: Region) returns (b': Board)
    requires Ranges(r)
    ensures forall c :: c in b' <==> c in b || InRegion(r, c)
    ensures forall c :: c in b ==> b'[c] == b[c]
    ensures forall c :: c in b' && c !in b ==> b'[c] == Empty
    ensures Homed(b) ==> Homed(b')
  {
    b' := b;
    for p := r.pLo to r.pHi
      invariant forall c :: c in b' <==> c in b || (InRegion(r, c) && c.p < p)
      invariant forall c :: c in b ==> b'[c] == b[c]
      invariant forall c :: c in b' && c !in b ==> b'[c] == Empty
    {
      for q := r.qLo to r.qHi
        invariant forall c :: c in b' <==> c in b || (InRegion(r, c) && (c.p < p || (c.p == p && c.q < q)))
        invariant forall c :: c in b ==> b'[c] == b[c]
        invariant forall c :: c in b' && c !in b ==> b'[c] == Empty
      {
        if Keeps(r.rule, p + q) && Coor(p, q) !in b' {
          b' := b'[Coor(p, q) := Empty];
        }
      }
    }
  }
}
