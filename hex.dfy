/** Hex-grid basics shared by the engine, the bots and the turn loop:
    axial coordinates, pieces, board cells, and the geometry helpers whose
    definitions are not part of this model (they are passed in as a value). */
module Hex {

  /** An axial coordinate (p, q); `q` is the "row" the bots compare. */
  datatype Coor = Coor(p: int, q: int)

  /** Componentwise vector sum (the `add` helper). */
  function Add(a: Coor, b: Coor): (r: Coor)
    ensures r.p - a.p == b.p && r.q - a.q == b.q
  {
    Coor(a.p + b.p, a.q + b.q)
  }

  /** A playing piece. Its owner is fixed when it is created; its coordinate
      changes on every move of the piece. */
  class Piece {
    const owner: int
    var coor: Coor

    constructor (owner: int, p: int, q: int)
      ensures this.owner == owner && coor == Coor(p, q)
    {
      this.owner := owner;
      coor := Coor(p, q);
    }
  }

  /** A board cell: `None` in the source, or a reference to a piece. */
  datatype Cell = Empty | Holds(piece: Piece)

  /** The board: a dictionary from coordinate to cell. */
  type Board = map<Coor, Cell>

  /** The extra landing squares that the jump-chain helper appends to the
      move list, given the list so far, the board, the square just reached
      by a jump, the direction of that jump and the moving player. */
  type JumpChain = (seq<Coor>, Board, Coor, Coor, int) -> seq<Coor>

  /** A dictionary from a coordinate to a list of coordinates, as the
      sequence of its entries in iteration (insertion) order. */
  type MoveDict = seq<(Coor, seq<Coor>)>

  /** The helpers and literals the engine relies on: the six unit
      directions, each player's start and end triangles (the end triangle
      as the list checkWin walks), the neutral hexagon, the jump-chain
      helper and the two per-player rotations. */
  datatype Geometry = Geometry(
    directions: seq<Coor>,
    startZone: int -> set<Coor>,
    endZone: int -> seq<Coor>,
    neutralZone: set<Coor>,
    checkJump: JumpChain,
    objToSubj: (Coor, int) -> Coor,
    subjToObj: (Coor, int) -> Coor)

  /** The squares where a piece of player n may end a move. */
  function AllowedZone(geo: Geometry, n: int): (z: set<Coor>)
    ensures geo.neutralZone <= z && geo.startZone(n) <= z
    ensures forall c :: c in geo.endZone(n) ==> c in z
  {
    geo.startZone(n) + (set c | c in geo.endZone(n)) + geo.neutralZone
  }

  /** A list comprehension `[objToSubj(c, n) for c in cs]`. */
  function ToSubj(geo: Geometry, cs: seq<Coor>, n: int): (r: seq<Coor>)
    ensures |r| == |cs|
    ensures forall i :: 0 <= i < |cs| ==> r[i] == geo.objToSubj(cs[i], n)
  {
    seq(|cs|, i requires 0 <= i < |cs| => geo.objToSubj(cs[i], n))
  }

  /** The rotation for player n sends distinct cells to distinct cells. */
  ghost predicate Injective(geo: Geometry, n: int) {
    forall c, d :: geo.objToSubj(c, n) == geo.objToSubj(d, n) ==> c == d
  }
}
