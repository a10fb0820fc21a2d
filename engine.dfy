/** The game engine: the board dictionary, the per-player piece index, move
    generation, win detection, the read-only board projections and the
    guarded move. */
module Engine {
  import opened Hex
  import opened SeqUtil
  import opened Layout
  import opened Moves

  /** How movePiece ends: it moves, or it raises. A missing key raises
      KeyError; an empty start or an occupied end fails the assertion. */
  datatype MoveResult = Moved | KeyError(missing: Coor) | AssertionError

  /** How allMovesDict(playerNum) ends: with the dictionary, or with the
      KeyError of `pieces[playerNum]` for a number that has no piece set. */
  datatype MovesResult = Dict(dict: MoveDict) | PlayerKeyError(num: int)

  class Game {
    var playerCount: int
    var pieces: map<int, set<Piece>>
    var board: Board

    /** Every piece standing on the board. */
    ghost function Occupants(): set<Piece>
      reads this
    {
      set c | c in board && board[c].Holds? :: board[c].piece
    }

    /** The board's pieces know their own cells, and `pieces[n]` holds
        exactly player n's pieces on the board. */
    ghost predicate Valid()
      reads this, Occupants()
    {
      Homed(board) && Indexed(board, pieces)
    }

    /** `Game(playerCount)`: the stored count falls back to 3 for an invalid
        count, but the board is built from the count as given; the index
        starts as three empty sets that createBoard fills. */
    constructor (playerCount: int)
      ensures this.playerCount == if playerCount == 2 || playerCount == 3 then playerCount else 3
      ensures InitialShape(board, playerCount) && Homed(board)
      ensures pieces.Keys == {1, 2, 3}
      ensures forall n :: 1 <= n <= 2 ==> pieces[n] == PiecesIn(board, StartTriangle(n))
      ensures playerCount == 3 ==> pieces[3] == PiecesIn(board, StartTriangle(3))
      ensures playerCount != 3 ==> pieces[3] == {}
      ensures playerCount == 2 || playerCount == 3 ==> Valid()
    {
      this.playerCount := if playerCount == 2 || playerCount == 3 then playerCount else 3;
      var b, added1, added2, added3 := CreateBoard(playerCount);
      var index := map[1 := added1, 2 := added2, 3 := if playerCount == 3 then added3 else {}];
      if playerCount == 2 || playerCount == 3 {
        CreatedIsIndexed(b, index, playerCount);
      }
      pieces := index;
      board := b;
    }

    /** The piece movePiece(start, _) would move, as a frame. */
    function MovedPiece(start: Coor): set<Piece>
      reads this
    {
      if start in board && board[start].Holds? then {board[start].piece} else {}
    }

    /** movePiece(start, end): the assertion reads `board[start]` first and,
        only if that cell holds a piece, `board[end]`; a missing key raises
        KeyError, a failed test AssertionError. Otherwise the piece learns
        its new cell, is stored at `end`, and `start` becomes empty. */
    method MovePiece(start: Coor, end: Coor) returns (r: MoveResult)
      modifies this, MovedPiece(start)
      ensures r == MoveOutcome(old(board), start, end)
      ensures r == Moved ==> board == AfterMove(old(board), start, end) && old(board)[start].piece.coor == end
      ensures r != Moved ==> board == old(board) && forall x :: x in old(MovedPiece(start)) ==> x.coor == old(x.coor)
      ensures pieces == old(pieces) && playerCount == old(playerCount)
      ensures old(Valid()) ==> Valid()
    {
      ghost var wasValid := Valid();
      if start !in board {
        return KeyError(start);
      }
      if board[start].Empty? {
        return AssertionError;
      }
      if end !in board {
        return KeyError(end);
      }
      if board[end].Holds? {
        return AssertionError;
      }
      var piece := board[start].piece;
      ghost var before := board;
      piece.coor := end;
      board := board[end := board[start]];
      board := board[start := Empty];
      r := Moved;
      if wasValid {
        MoveKeepsIndex(before, pieces, start, end);
        assert Homed(board) by {
          forall c | c in board && board[c].Holds?
            ensures board[c].piece.coor == c
          {
            if c != start && c != end {
              assert board[c] == before[c];
              assert board[c].piece != piece;
            }
          }
        }
      }
    }

    /** Stepping a replay forward with movePiece(start, end) and back with
        movePiece(end, start) restores the board and the piece's cell. */
    method StepForwardAndBack(start: Coor, end: Coor) returns (r1: MoveResult, r2: MoveResult)
      requires Valid()
      modifies this, MovedPiece(start)
      ensures r1 == Moved ==> r2 == Moved
      ensures r1 != Moved ==> r2 == r1
      ensures board == old(board)
      ensures forall x :: x in old(MovedPiece(start)) ==> x.coor == old(x.coor)
      ensures Valid()
    {
      r1 := MovePiece(start, end);
      if r1 == Moved {
        ghost var mid := board;
        MoveRoundTrip(old(board), start, end);
        assert MovedPiece(end) == old(MovedPiece(start));
        r2 := MovePiece(end, start);
      } else {
        r2 := r1;
      }
    }

    /** The entry allMovesDict makes for piece x of player n: its subjective
        coordinate, mapped to its valid moves in subjective coordinates. */
    ghost function EntryOf(x: Piece, n: int, geo: Geometry): (Coor, seq<Coor>)
      reads this, x
    {
      (geo.objToSubj(x.coor, n), ToSubj(geo, ValidMoves(board, x.coor, n, geo), n))
    }

    /** d is a dictionary of allMovesDict(n): keys are unique; every piece
        of n with a valid move has its subjective coordinate as a key; and
        every entry is the entry of such a piece. */
    ghost predicate MovesOf(d: MoveDict, n: int, geo: Geometry)
      requires n in pieces
      reads this, pieces[n]
    {
      UniqueKeys(d) &&
      (forall x :: x in pieces[n] && ValidMoves(board, x.coor, n, geo) != [] ==> geo.objToSubj(x.coor, n) in Keys(d)) &&
      (forall e :: e in d ==> exists x :: x in pieces[n] && ValidMoves(board, x.coor, n, geo) != [] && e == EntryOf(x, n, geo))
    }

    /** allMovesDict(playerNum): for each piece of the player, in the set's
        iteration order, its non-empty move list is stored under its
        subjective coordinate. */
    method AllMovesDict(playerNum: int, geo: Geometry) returns (r: MovesResult)
      ensures r.PlayerKeyError? <==> playerNum !in pieces
      ensures r.PlayerKeyError? ==> r.num == playerNum
      ensures r.Dict? ==> MovesOf(r.dict, playerNum, geo)
    {
      if playerNum !in pieces {
        return PlayerKeyError(playerNum);
      }
      var d: MoveDict := [];
      var rest := pieces[playerNum];
      while rest != {}
        invariant rest <= pieces[playerNum]
        invariant UniqueKeys(d)
        invariant forall x :: x in pieces[playerNum] - rest && ValidMoves(board, x.coor, playerNum, geo) != [] ==>
                    geo.objToSubj(x.coor, playerNum) in Keys(d)
        invariant forall e :: e in d ==>
                    (exists x :: x in pieces[playerNum] - rest &&
                      ValidMoves(board, x.coor, playerNum, geo) != [] && e == EntryOf(x, playerNum, geo))
        decreases |rest|
      {
        var p :| p in rest;
        var pMoves := GetValidMoves(p.coor, playerNum, geo);
        if pMoves != [] {
          ghost var before := d;
          var key := geo.objToSubj(p.coor, playerNum);
          d := Put(d, key, ToSubj(geo, pMoves, playerNum));
          PutSpec(before, key, ToSubj(geo, pMoves, playerNum));
          KeysPut(before, key, ToSubj(geo, pMoves, playerNum));
        }
        rest := rest - {p};
      }
      r := Dict(d);
    }

    /** When the rotation is one-to-one, a dictionary of allMovesDict(n) has
        a key for a piece exactly when the piece has a valid move, and the
        value under that key is the piece's rotated move list. */
    lemma MovesDictExact(d: MoveDict, n: int, geo: Geometry)
      requires n in pieces && MovesOf(d, n, geo) && Injective(geo, n)
      ensures forall x :: x in pieces[n] ==>
                (geo.objToSubj(x.coor, n) in Keys(d) <==> ValidMoves(board, x.coor, n, geo) != [])
      ensures forall x, i :: x in pieces[n] && 0 <= i < |d| && d[i].0 == geo.objToSubj(x.coor, n) ==>
                d[i].1 == ToSubj(geo, ValidMoves(board, x.coor, n, geo), n)
    {
      forall x, i | x in pieces[n] && 0 <= i < |d| && d[i].0 == geo.objToSubj(x.coor, n)
        ensures ValidMoves(board, x.coor, n, geo) != [] && d[i] == EntryOf(x, n, geo)
      {
        assert d[i] in d;
        var y :| y in pieces[n] && ValidMoves(board, y.coor, n, geo) != [] && d[i] == EntryOf(y, n, geo);
        assert y.coor == x.coor;
      }
    }

    /** getValidMoves(startPos, playerNum): the direction loop, then the
        territory filter, then `list(set(moves))`. */
    method GetValidMoves(startPos: Coor, playerNum: int, geo: Geometry) returns (moves: seq<Coor>)
      ensures moves == ValidMoves(board, startPos, playerNum, geo)
    {
      moves := ScanMoves(startPos, playerNum, geo);
      moves := DropOutside(moves, playerNum, geo);
      moves := Dedup(moves);
    }

    /** The direction loop of getValidMoves: a step is appended; a jump
        landing is appended and handed to checkJump, which appends what it
        finds. */
    method ScanMoves(startPos: Coor, playerNum: int, geo: Geometry) returns (moves: seq<Coor>)
      ensures moves == Scan(board, startPos, geo.directions, playerNum, geo.checkJump)
    {
      var dirs := geo.directions;
      moves := [];
      for k := 0 to |dirs|
        invariant moves == Scan(board, startPos, dirs[..k], playerNum, geo.checkJump)
      {
        var direction := dirs[k];
        var destination := Add(startPos, direction);
        if destination !in board {
        } else if board[destination].Empty? {
          moves := moves + [destination];
        } else {
          destination := Add(destination, direction);
          if destination !in board || board[destination].Holds? {
          } else {
            moves := moves + [destination];
            moves := moves + geo.checkJump(moves, board, destination, direction, playerNum);
          }
        }
        assert dirs[..k + 1][..k] == dirs[..k];
      }
      assert dirs[..|dirs|] == dirs;
    }
  }

  /** The pieces on b that belong to player n. */
  ghost function OwnedBy(b: Board, n: int): set<Piece>
  {
    set c | c in b && b[c].Holds? && b[c].piece.owner == n :: b[c].piece
  }

  /** The index has the keys 1, 2 and 3, every piece on b belongs to one of
      them, and `index[n]` holds exactly player n's pieces on b. */
  ghost predicate Indexed(b: Board, index: map<int, set<Piece>>)
  {
    index.Keys == {1, 2, 3} &&
    (forall c :: c in b && b[c].Holds? ==> 1 <= b[c].piece.owner <= 3) &&
    (forall n :: n in index ==> index[n] == OwnedBy(b, n))
  }

  /** Under the layout createBoard produces, the index built alongside it
      matches the board. */
  lemma CreatedIsIndexed(b: Board, index: map<int, set<Piece>>, count: int)
    requires count == 2 || count == 3
    requires InitialShape(b, count) && index.Keys == {1, 2, 3}
    requires forall n :: 1 <= n <= 2 ==> index[n] == PiecesIn(b, StartTriangle(n))
    requires count == 3 ==> index[3] == PiecesIn(b, StartTriangle(3))
    requires count != 3 ==> index[3] == {}
    ensures Indexed(b, index)
  {
    forall n | n in index
      ensures index[n] == OwnedBy(b, n)
    {
      forall x | x in OwnedBy(b, n)
        ensures x in index[n]
      {
        var c :| c in b && b[c].Holds? && b[c].piece.owner == n && b[c].piece == x;
        StartTrianglesApart(c);
      }
      forall x | x in index[n]
        ensures x in OwnedBy(b, n)
      {
        var c :| c in Cells(StartTriangle(n)) && c in b && b[c].Holds? && b[c].piece == x;
      }
    }
    forall c | c in b && b[c].Holds?
      ensures 1 <= b[c].piece.owner <= 3
    {
    }
  }

  /** The filter loop of getValidMoves: it walks a copy of the list and
      removes every landing outside the mover's start, end and neutral
      zones. */
  method DropOutside(moves: seq<Coor>, playerNum: int, geo: Geometry) returns (kept: seq<Coor>)
    ensures kept == Without(moves, Rejected(geo, playerNum, moves))
  {
    kept := moves;
    ghost var removed: set<Coor> := {};
    WithoutNothing(moves, removed);
    for i := 0 to |moves|
      invariant forall c :: c in removed <==> c in moves[..i] && c !in AllowedZone(geo, playerNum)
      invariant kept == Without(moves, removed)
    {
      var x := moves[i];
      assert moves[..i + 1] == moves[..i] + [x];
      if x !in geo.startZone(playerNum) && x !in geo.endZone(playerNum) && x !in geo.neutralZone {
        WithoutTwice(moves, removed, {x});
        kept := RemoveAll(kept, x);
        removed := removed + {x};
      }
    }
    assert moves[..|moves|] == moves;
    assert removed == Rejected(geo, playerNum, moves);
  }

  /** `while x in moves: moves.remove(x)`. */
  method RemoveAll(moves: seq<Coor>, x: Coor) returns (r: seq<Coor>)
    ensures r == Without(moves, {x})
  {
    r := moves;
    while x in r
      invariant Without(r, {x}) == Without(moves, {x})
      decreases |r|
    {
      RemoveFirstWithout(r, x);
      r := RemoveFirst(r, x);
    }
    WithoutNothing(r, {x});
  }

  /** What movePiece(start, end) does on board b. */
  function MoveOutcome(b: Board, start: Coor, end: Coor): (r: MoveResult)
    ensures r == Moved <==> start in b && b[start].Holds? && end in b && b[end].Empty?
    ensures start !in b ==> r == KeyError(start)
    ensures r.KeyError? ==> r.missing !in b
    ensures r == AssertionError <==> start in b && (b[start].Empty? || (end in b && b[end].Holds?))
  {
    if start !in b then KeyError(start)
    else if b[start].Empty? then AssertionError
    else if end !in b then KeyError(end)
    else if b[end].Holds? then AssertionError
    else Moved
  }

  /** The board after a completed movePiece(start, end). */
  function AfterMove(b: Board, start: Coor, end: Coor): (r: Board)
    requires start in b && end in b
    ensures r.Keys == b.Keys && r[start] == Empty
    ensures start != end ==> r[end] == b[start]
    ensures forall c :: c in b && c != start && c != end ==> r[c] == b[c]
  {
    b[end := b[start]][start := Empty]
  }

  /** Moving back from end to start is allowed right after a move and
      restores the board. */
  lemma MoveRoundTrip(b: Board, start: Coor, end: Coor)
    requires MoveOutcome(b, start, end) == Moved
    ensures MoveOutcome(AfterMove(b, start, end), end, start) == Moved
    ensures AfterMove(AfterMove(b, start, end), end, start) == b
  {
    var m := AfterMove(b, start, end);
    assert start != end;
    assert AfterMove(m, end, start).Keys == b.Keys;
  }

  /** A move carries the same piece object from one cell to another, so
      every player owns the same pieces afterwards and the index still
      matches the board. */
  lemma MoveKeepsIndex(b: Board, index: map<int, set<Piece>>, start: Coor, end: Coor)
    requires Indexed(b, index) && MoveOutcome(b, start, end) == Moved
    ensures Indexed(AfterMove(b, start, end), index)
  {
    var m := AfterMove(b, start, end);
    forall n | n in index
      ensures index[n] == OwnedBy(m, n)
    {
      forall x | x in OwnedBy(b, n)
        ensures x in OwnedBy(m, n)
      {
        var c :| c in b && b[c].Holds? && b[c].piece.owner == n && b[c].piece == x;
        var c' := if c == start then end else c;
        assert m[c'].Holds? && m[c'].piece == x;
      }
      forall x | x in OwnedBy(m, n)
        ensures x in OwnedBy(b, n)
      {
        var c :| c in m && m[c].Holds? && m[c].piece.owner == n && m[c].piece == x;
        var c' := if c == end then start else c;
        assert b[c'].Holds? && b[c'].piece == x;
      }
    }
  }

  /** createBoard: the seven fill loops in the source's order. The source
      adds each piece it places on start triangle n to `self.pieces[n]`
      (for n = 3 only when the count is 3); here those pieces are returned
      as `added1`, `added2`, `added3` for the constructor to index. The
      third triangle is left empty for 2 players. */
  method CreateBoard(count: int) returns (b: Board, added1: set<Piece>, added2: set<Piece>, added3: set<Piece>)
    ensures InitialShape(b, count) && Homed(b)
    ensures added1 == PiecesIn(b, StartTriangle(1)) && added2 == PiecesIn(b, StartTriangle(2))
    ensures count != 2 ==> added3 == PiecesIn(b, StartTriangle(3))
  {
    var b1 := FillIfAbsent(map[], OppositeTriangle(1));
    var b2;
    b2, added1 := FillRegion(b1, StartTriangle(1), 1, true);
    var b3 := FillIfAbsent(b2, OppositeTriangle(2));
    var b4;
    b4, added2 := FillRegion(b3, StartTriangle(2), 2, true);
    var b5 := FillIfAbsent(b4, OppositeTriangle(3));
    var b6;
    b6, added3 := FillRegion(b5, StartTriangle(3), 3, count != 2);
    var none;
    b, none := FillRegion(b6, NeutralHexagon, 0, false);
    CreatedShape(b1, b2, b3, b4, b5, b6, b, count);
  }

  /** The seven fills of createBoard, in order, related by what each
      guarantees. */
  ghost predicate Fills(b1: Board, b2: Board, b3: Board, b4: Board, b5: Board, b6: Board, b: Board, count: int) {
    FilledAbsent(map[], b1, OppositeTriangle(1)) &&
    FilledWith(b1, b2, StartTriangle(1), 1, true) &&
    FilledAbsent(b2, b3, OppositeTriangle(2)) &&
    FilledWith(b3, b4, StartTriangle(2), 2, true) &&
    FilledAbsent(b4, b5, OppositeTriangle(3)) &&
    FilledWith(b5, b6, StartTriangle(3), 3, count != 2) &&
    FilledWith(b6, b, NeutralHexagon, 0, false)
  }

  /** The seven fills of createBoard, composed, give the initial shape, and
      leave the start triangles as their own fills left them. */
  lemma CreatedShape(b1: Board, b2: Board, b3: Board, b4: Board, b5: Board, b6: Board, b: Board, count: int)
    requires Fills(b1, b2, b3, b4, b5, b6, b, count)
    ensures InitialShape(b, count)
    ensures PiecesIn(b, StartTriangle(1)) == PiecesIn(b2, StartTriangle(1))
    ensures PiecesIn(b, StartTriangle(2)) == PiecesIn(b4, StartTriangle(2))
    ensures PiecesIn(b, StartTriangle(3)) == PiecesIn(b6, StartTriangle(3))
  {
    CreatedKeys(b1, b2, b3, b4, b5, b6, b, count);
    CreatedStarts(b1, b2, b3, b4, b5, b6, b, count);
    CreatedCells(b1, b2, b3, b4, b5, b6, b, count);
    CreatedOwners(b1, b2, b3, b4, b5, b6, b, count);
  }

  /** The board's cells are the union of the seven regions. */
  lemma CreatedKeys(b1: Board, b2: Board, b3: Board, b4: Board, b5: Board, b6: Board, b: Board, count: int)
    requires Fills(b1, b2, b3, b4, b5, b6, b, count)
    ensures forall c :: c in b <==> OnBoard(c)
  {
  }

  /** No later fill touches a start triangle once it is filled. */
  lemma CreatedStarts(b1: Board, b2: Board, b3: Board, b4: Board, b5: Board, b6: Board, b: Board, count: int)
    requires Fills(b1, b2, b3, b4, b5, b6, b, count)
    ensures forall c :: InRegion(StartTriangle(1), c) ==> c in b2 && c in b && b[c] == b2[c]
    ensures forall c :: InRegion(StartTriangle(2), c) ==> c in b4 && c in b && b[c] == b4[c]
    ensures forall c :: InRegion(StartTriangle(3), c) ==> c in b6 && c in b && b[c] == b6[c]
  {
  }

  /** Exactly the initially occupied cells hold pieces. */
  lemma CreatedCells(b1: Board, b2: Board, b3: Board, b4: Board, b5: Board, b6: Board, b: Board, count: int)
    requires Fills(b1, b2, b3, b4, b5, b6, b, count)
    ensures forall c :: c in b ==> (b[c].Holds? <==> InitiallyOccupied(c, count))
  {
    forall c | c in b
      ensures b[c].Holds? <==> InitiallyOccupied(c, count)
    {
      CreatedCell(b1, b2, b3, b4, b5, b6, b, count, c);
    }
  }

  lemma CreatedCell(b1: Board, b2: Board, b3: Board, b4: Board, b5: Board, b6: Board, b: Board, count: int, c: Coor)
    requires Fills(b1, b2, b3, b4, b5, b6, b, count)
    requires c in b
    ensures b[c].Holds? <==> InitiallyOccupied(c, count)
  {
    StartTrianglesApart(c);
    if InRegion(StartTriangle(1), c) {
      CreatedStarts(b1, b2, b3, b4, b5, b6, b, count);
    } else if InRegion(StartTriangle(2), c) {
      CreatedStarts(b1, b2, b3, b4, b5, b6, b, count);
    } else if InRegion(StartTriangle(3), c) {
      CreatedStarts(b1, b2, b3, b4, b5, b6, b, count);
    }
  }

  /** Each piece belongs to the player of its start triangle. */
  lemma CreatedOwners(b1: Board, b2: Board, b3: Board, b4: Board, b5: Board, b6: Board, b: Board, count: int)
    requires Fills(b1, b2, b3, b4, b5, b6, b, count)
    ensures forall n, c :: 1 <= n <= 3 && InRegion(StartTriangle(n), c) && c in b && b[c].Holds? ==> b[c].piece.owner == n
  {
    CreatedStarts(b1, b2, b3, b4, b5, b6, b, count);
  }

  /** What FillIfAbsent guarantees, as a relation between its input and
      its output. */
  ghost predicate FilledAbsent(b: Board, b': Board, r: Region) {
    (forall c :: c in b' <==> c in b || InRegion(r, c)) &&
    (forall c :: c in b ==> b'[c] == b[c]) &&
    (forall c :: c in b' && c !in b ==> b'[c] == Empty)
  }

  /** What FillRegion guarantees of the board, as a relation between its
      input and its output. */
  ghost predicate FilledWith(b: Board, b': Board, r: Region, owner: int, place: bool) {
    (forall c :: c in b' <==> c in b || InRegion(r, c)) &&
    (forall c :: c in b && !InRegion(r, c) ==> b'[c] == b[c]) &&
    (forall c :: InRegion(r, c) ==> Filled(b', c, owner, place))
  }

  /** One fill loop of createBoard over region r: every cell of r gets a new
      piece of `owner` (when `place`) or is set empty (otherwise); the new
      pieces are returned in `added`, which createBoard adds to the index. */
  method FillRegion(b: Board, r: Region, owner: int, place: bool) returns (b': Board, added: set<Piece>)
    requires Ranges(r)
    requires Homed(b)
    ensures FilledWith(b, b', r, owner, place)
    ensures Homed(b')
    ensures added == (if place then PiecesIn(b', r) else {})
  {
    b' := b;
    added := {};
    ghost var placed: set<Coor> := {};
    for p := r.pLo to r.pHi
      invariant forall c :: c in placed <==> InRegion(r, c) && c.p < p
      invariant forall c :: c in b' <==> c in b || c in placed
      invariant forall c :: c in b && c !in placed ==> b'[c] == b[c]
      invariant forall c :: c in placed ==> Filled(b', c, owner, place)
      invariant Homed(b')
      invariant !place ==> added == {}
      invariant place ==> forall c :: c in placed ==> b'[c].Holds? && b'[c].piece in added
      invariant forall x :: x in added ==> x.coor in placed && b'[x.coor] == Holds(x)
    {
      ghost var row;
      var more;
      b', row, more := FillRow(b', r, p, owner, place);
      added := added + more;
      placed := placed + row;
    }
    if place {
      AddedArePiecesIn(b', r, added);
    }
  }

  /** The inner loop of a fill: the cells of r in row p, returned (as a
      ghost) in `row`. */
  method FillRow(b: Board, r: Region, p: int, owner: int, place: bool)
    returns (b': Board, ghost row: set<Coor>, added: set<Piece>)
    requires Ranges(r) && r.pLo <= p < r.pHi
    requires Homed(b)
    ensures forall c :: c in row <==> InRegion(r, c) && c.p == p
    ensures forall c :: c in b' <==> c in b || c in row
    ensures forall c :: c in b && c !in row ==> b'[c] == b[c]
    ensures forall c :: c in row ==> Filled(b', c, owner, place)
    ensures Homed(b')
    ensures !place ==> added == {}
    ensures place ==> forall c :: c in row ==> b'[c].Holds? && b'[c].piece in added
    ensures forall x :: x in added ==> x.coor in row && b'[x.coor] == Holds(x)
  {
    b' := b;
    row := {};
    added := {};
    for q := r.qLo to r.qHi
      invariant forall c :: c in row <==> InRegion(r, c) && c.p == p && c.q < q
      invariant forall c :: c in b' <==> c in b || c in row
      invariant forall c :: c in b && c !in row ==> b'[c] == b[c]
      invariant forall c :: c in row ==> Filled(b', c, owner, place)
      invariant Homed(b')
      invariant !place ==> added == {}
      invariant place ==> forall c :: c in row ==> b'[c].Holds? && b'[c].piece in added
      invariant forall x :: x in added ==> x.coor in row && b'[x.coor] == Holds(x)
    {
      if Keeps(r.rule, p + q) {
        var c := Coor(p, q);
        if place {
          var piece := new Piece(owner, p, q);
          b' := b'[c := Holds(piece)];
          added := added + {piece};
        } else {
          b' := b'[c := Empty];
        }
        row := row + {c};
      }
    }
  }

  /** The pieces a fill loop returns are exactly those standing on its
      region. */
  lemma AddedArePiecesIn(b: Board, r: Region, added: set<Piece>)
    requires forall c :: InRegion(r, c) ==> c in b && b[c].Holds? && b[c].piece in added
    requires forall x :: x in added ==> InRegion(r, x.coor) && x.coor in b && b[x.coor] == Holds(x)
    ensures added == PiecesIn(b, r)
  {
  }

  /** On a board whose pieces know their cells, a set of cells each of
      which holds a piece holds as many pieces as it has cells. */
  lemma FullCellsCount(b: Board, cs: set<Coor>)
    requires Homed(b)
    requires forall c :: c in cs ==> c in b && b[c].Holds?
    ensures |PiecesOn(b, cs)| == |cs|
  {
    var xs := PiecesOn(b, cs);
    var coors := set x | x in xs :: x.coor;
    assert coors == cs;
    InjectiveImageSize(xs, coors);
  }

  /** Right after createBoard(count), each start triangle holds 15 pieces,
      except the third when count is 2, which holds none. */
  lemma InitialCounts(b: Board, count: int, n: int)
    requires InitialShape(b, count) && Homed(b)
    requires 1 <= n <= 3
    ensures |PiecesIn(b, StartTriangle(n))| == if n == 3 && count == 2 then 0 else 15
  {
    if n == 3 && count == 2 {
      assert PiecesIn(b, StartTriangle(n)) == {};
    } else {
      FullCellsCount(b, Cells(StartTriangle(n)));
      StartTriangleSize(n);
    }
  }

  /** A set of pieces with pairwise distinct cells has as many elements as
      it has cells. */
  lemma {:induction false} InjectiveImageSize(xs: set<Piece>, coors: set<Coor>)
    requires coors == set x | x in xs :: x.coor
    requires forall x, y :: x in xs && y in xs && x.coor == y.coor ==> x == y
    ensures |xs| == |coors|
  {
    if xs != {} {
      var x :| x in xs;
      var rest := xs - {x};
      var restCoors := set y | y in rest :: y.coor;
      assert restCoors == coors - {x.coor};
      InjectiveImageSize(rest, restCoors);
    }
  }

  /** What a fill loop leaves at a cell of its region. */
  predicate Filled(b: Board, c: Coor, owner: int, place: bool) {
    c in b &&
    if place then b[c].Holds? && b[c].piece.owner == owner else b[c] == Empty
  }
}
