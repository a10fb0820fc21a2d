/** The read-only scans of the game: `checkWin` and the two board-state
    projections `getBoardState` and `getBoolBoardState`. */
module Views {
  import opened Hex
  import opened SeqUtil
  import opened Layout
  import opened Engine

  /** checkWin(n) over the end-zone list `cells`: it returns False at the
      first cell that is empty or holds a foreign piece, True otherwise. */
  function CheckWin(b: Board, cells: seq<Coor>, n: int): (won: bool)
    requires forall c :: c in cells ==> c in b
    ensures won <==> forall i :: 0 <= i < |cells| ==> b[cells[i]].Holds? && b[cells[i]].piece.owner == n
  {
    if cells == [] then true
    else if b[cells[0]].Empty? then false
    else if b[cells[0]].piece.owner != n then false
    else CheckWin(b, cells[1..], n)
  }

  /** A finite subset as large as its superset is the whole superset. */
  lemma SubsetSameSize<T>(a: set<T>, b: set<T>)
    requires a <= b && |a| == |b|
    ensures a == b
  {
    assert b == a + (b - a);
    assert |b| == |a| + |b - a|;
  }

  /** On a consistent board where player n owns as many pieces as the end
      zone has cells, checkWin(n) holds exactly when every piece of n
      stands in the end zone. */
  lemma WinMeansAllHome(b: Board, index: map<int, set<Piece>>, zone: seq<Coor>, n: int)
    requires Homed(b) && Indexed(b, index) && 1 <= n <= 3
    requires forall c :: c in zone ==> c in b
    requires NoDup(zone) && |index[n]| == |zone|
    ensures CheckWin(b, zone, n) <==> forall x :: x in index[n] ==> x.coor in zone
  {
    var z := set c | c in zone;
    NoDupCard(zone);
    if CheckWin(b, zone, n) {
      assert forall c :: c in z ==> b[c].Holds? && b[c].piece.owner == n;
      FullCellsCount(b, z);
      assert PiecesOn(b, z) <= index[n];
      SubsetSameSize(PiecesOn(b, z), index[n]);
    }
    if forall x :: x in index[n] ==> x.coor in zone {
      AllHomeFillsZone(b, index, zone, n);
    }
  }

  /** If every piece of n stands in the end zone and there are as many
      pieces as cells, every cell of the zone holds a piece of n. */
  lemma AllHomeFillsZone(b: Board, index: map<int, set<Piece>>, zone: seq<Coor>, n: int)
    requires Homed(b) && Indexed(b, index) && 1 <= n <= 3
    requires forall c :: c in zone ==> c in b
    requires NoDup(zone) && |index[n]| == |zone|
    requires forall x :: x in index[n] ==> x.coor in zone
    ensures forall i :: 0 <= i < |zone| ==> b[zone[i]].Holds? && b[zone[i]].piece.owner == n
  {
    var z := set c | c in zone;
    NoDupCard(zone);
    var image := set x | x in index[n] :: x.coor;
    forall x, y | x in index[n] && y in index[n] && x.coor == y.coor
      ensures x == y
    {
      var cx :| cx in b && b[cx].Holds? && b[cx].piece.owner == n && b[cx].piece == x;
      var cy :| cy in b && b[cy].Holds? && b[cy].piece.owner == n && b[cy].piece == y;
    }
    InjectiveImageSize(index[n], image);
    assert image <= z;
    SubsetSameSize(image, z);
    forall i | 0 <= i < |zone|
      ensures b[zone[i]].Holds? && b[zone[i]].piece.owner == n
    {
      assert zone[i] in image;
      var x :| x in index[n] && x.coor == zone[i];
      var cx :| cx in b && b[cx].Holds? && b[cx].piece.owner == n && b[cx].piece == x;
    }
  }

  /** A duplicate-free list has as many elements as its set. */
  lemma {:induction false} NoDupCard<T>(s: seq<T>)
    requires NoDup(s)
    ensures |set x | x in s| == |s|
  {
    if s != [] {
      var rest := s[1..];
      assert NoDup(rest) by {
        forall i, j | 0 <= i < j < |rest|
          ensures rest[i] != rest[j]
        {
          assert rest[i] == s[i + 1] && rest[j] == s[j + 1];
        }
      }
      NoDupCard(rest);
      assert (set x | x in s) == (set x | x in rest) + {s[0]};
      assert s[0] !in rest by {
        forall j | 0 <= j < |rest|
          ensures rest[j] != s[0]
        {
          assert rest[j] == s[j + 1];
        }
      }
    }
  }

  /** The value getBoardState stores for a cell. */
  function CellCode(c: Cell): int {
    if c.Empty? then 0 else c.piece.owner
  }

  /** `state[rot(i, n)] = f(board[i])` for the keys i of the board in its
      iteration order `order`; a later key overwrites an earlier one with
      the same rotated coordinate. */
  function Project<V>(b: Board, order: seq<Coor>, n: int, rot: (Coor, int) -> Coor, f: Cell -> V): (r: map<Coor, V>)
    requires forall c :: c in order ==> c in b
    ensures forall c :: c in order ==> rot(c, n) in r
    ensures |order| >= 1 ==> r[rot(order[|order| - 1], n)] == f(b[order[|order| - 1]])
    decreases |order|
  {
    if order == [] then map[]
    else
      var last := order[|order| - 1];
      Project(b, order[..|order| - 1], n, rot, f)[rot(last, n) := f(b[last])]
  }

  /** The projection has a key for each rotated cell and no other, and
      each value is f of a cell that rotates to its key. */
  lemma {:induction false} ProjectSpec<V>(b: Board, order: seq<Coor>, n: int, rot: (Coor, int) -> Coor, f: Cell -> V)
    requires forall c :: c in order ==> c in b
    ensures forall k :: k in Project(b, order, n, rot, f) <==> exists c :: c in order && rot(c, n) == k
    ensures forall k :: k in Project(b, order, n, rot, f) ==>
              exists c :: c in order && rot(c, n) == k && Project(b, order, n, rot, f)[k] == f(b[c])
    decreases |order|
  {
    if order != [] {
      var init := order[..|order| - 1];
      var last := order[|order| - 1];
      assert order == init + [last];
      ProjectSpec(b, init, n, rot, f);
    }
  }

  /** getBoardState(n): each cell's code under its subjective coordinate. */
  function BoardState(b: Board, order: seq<Coor>, n: int, geo: Geometry): (r: map<Coor, int>)
    requires forall c :: c in order ==> c in b
    ensures forall c :: c in order ==> geo.objToSubj(c, n) in r
  {
    Project(b, order, n, geo.objToSubj, CellCode)
  }

  /** getBoolBoardState(n): whether each cell is occupied, under its
      subjective coordinate. */
  function BoolBoardState(b: Board, order: seq<Coor>, n: int, geo: Geometry): (r: map<Coor, bool>)
    requires forall c :: c in order ==> c in b
    ensures forall c :: c in order ==> geo.objToSubj(c, n) in r
  {
    Project(b, order, n, geo.objToSubj, (c: Cell) => c.Holds?)
  }

  /** When the rotation is one-to-one and `order` lists the board's keys,
      getBoardState holds exactly one entry per cell: 0 for an empty cell,
      the owner for an occupied one. */
  lemma BoardStateExact(b: Board, order: seq<Coor>, n: int, geo: Geometry)
    requires forall c :: c in order <==> c in b
    requires Injective(geo, n)
    ensures forall k :: k in BoardState(b, order, n, geo) <==> exists c :: c in b && geo.objToSubj(c, n) == k
    ensures forall c :: c in b ==> BoardState(b, order, n, geo)[geo.objToSubj(c, n)] == CellCode(b[c])
  {
    ProjectSpec(b, order, n, geo.objToSubj, CellCode);
  }

  /** On a board whose pieces all have an owner from 1 to 3, the boolean
      state records occupancy exactly where the integer state is nonzero. */
  lemma {:induction false} BoolStateAgrees(b: Board, order: seq<Coor>, n: int, geo: Geometry)
    requires forall c :: c in order ==> c in b
    requires forall c :: c in b && b[c].Holds? ==> 1 <= b[c].piece.owner <= 3
    ensures BoolBoardState(b, order, n, geo).Keys == BoardState(b, order, n, geo).Keys
    ensures forall k :: k in BoolBoardState(b, order, n, geo) ==>
              BoolBoardState(b, order, n, geo)[k] == (BoardState(b, order, n, geo)[k] != 0)
  {
    if order != [] {
      var init := order[..|order| - 1];
      assert order == init + [order[|order| - 1]];
      BoolStateAgrees(b, init, n, geo);
    }
  }
}
