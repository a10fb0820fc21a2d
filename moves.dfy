/** What `Game.getValidMoves` computes, stated as functions over the board
    value, and the properties of that result. */
module Moves {
  import opened Hex
  import opened SeqUtil

  /** `start + d` is an empty on-board neighbour: a plain step. */
  predicate IsStep(b: Board, start: Coor, d: Coor) {
    var m := Add(start, d);
    m in b && b[m].Empty?
  }

  /** `start + d` is occupied and `start + 2d` is an empty on-board square:
      a single jump over the neighbour. */
  predicate IsJump(b: Board, start: Coor, d: Coor) {
    var m := Add(start, d);
    var j := Add(m, d);
    m in b && b[m].Holds? && j in b && b[j].Empty?
  }

  /** The body of the direction loop for one direction d: a step is
      appended; a jump landing is appended and then handed to the jump-chain
      helper, which appends what it finds. Otherwise nothing changes. */
  function ScanStep(b: Board, start: Coor, d: Coor, n: int, jump: JumpChain, moves: seq<Coor>): (r: seq<Coor>)
    ensures moves <= r
    ensures IsStep(b, start, d) ==> r == moves + [Add(start, d)]
    ensures IsJump(b, start, d) ==> |moves| < |r| && r[|moves|] == Add(Add(start, d), d)
    ensures IsJump(b, start, d) ==>
              var withJ := moves + [Add(Add(start, d), d)];
              r == withJ + jump(withJ, b, Add(Add(start, d), d), d, n)
    ensures !IsStep(b, start, d) && !IsJump(b, start, d) ==> r == moves
  {
    var m := Add(start, d);
    if m !in b then moves
    else if b[m].Empty? then moves + [m]
    else
      var j := Add(m, d);
      if j !in b || b[j].Holds? then moves
      else
        var withJ := moves + [j];
        withJ + jump(withJ, b, j, d, n)
  }

  /** The move list after the direction loop has run over dirs, in order. */
  function Scan(b: Board, start: Coor, dirs: seq<Coor>, n: int, jump: JumpChain): (r: seq<Coor>)
    ensures forall i :: 0 <= i < |dirs| && IsStep(b, start, dirs[i]) ==> Add(start, dirs[i]) in r
    ensures forall i :: 0 <= i < |dirs| && IsJump(b, start, dirs[i]) ==> Add(Add(start, dirs[i]), dirs[i]) in r
  {
    if dirs == [] then []
    else ScanStep(b, start, dirs[|dirs| - 1], n, jump, Scan(b, start, dirs[..|dirs| - 1], n, jump))
  }

  /** The landings of a scan that the territory rule rejects. */
  function Rejected(geo: Geometry, n: int, s: seq<Coor>): (x: set<Coor>)
    ensures forall c :: c in x <==> c in s && c !in AllowedZone(geo, n)
  {
    set c | c in s && c !in AllowedZone(geo, n)
  }

  /** The result of getValidMoves(start, n): the scan over all six
      directions, with every landing outside the mover's start, end and
      neutral zones removed, without duplicates. */
  function ValidMoves(b: Board, start: Coor, n: int, geo: Geometry): (r: seq<Coor>)
    ensures NoDup(r)
    ensures forall x :: x in r <==> x in Scan(b, start, geo.directions, n, geo.checkJump) && x in AllowedZone(geo, n)
  {
    var s := Scan(b, start, geo.directions, n, geo.checkJump);
    Dedup(Without(s, Rejected(geo, n, s)))
  }

  /** Later directions only append: the scan of a prefix of the directions
      is a prefix of the full scan. */
  lemma {:induction false} ScanPrefix(b: Board, start: Coor, dirs: seq<Coor>, n: int, jump: JumpChain, k: nat)
    requires k <= |dirs|
    ensures Scan(b, start, dirs[..k], n, jump) <= Scan(b, start, dirs, n, jump)
  {
    if k < |dirs| {
      var last := dirs[..|dirs| - 1];
      assert dirs[..k] == last[..k];
      ScanPrefix(b, start, last, n, jump, k);
    } else {
      assert dirs[..k] == dirs;
    }
  }

  /** getValidMoves returns a duplicate-free list of allowed landings, and
      it contains every allowed plain step and every allowed single jump. */
  lemma ValidMovesSpec(b: Board, start: Coor, n: int, geo: Geometry)
    ensures NoDup(ValidMoves(b, start, n, geo))
    ensures forall x :: x in ValidMoves(b, start, n, geo) ==> x in AllowedZone(geo, n)
    ensures forall i :: 0 <= i < |geo.directions| && IsStep(b, start, geo.directions[i])
              && Add(start, geo.directions[i]) in AllowedZone(geo, n)
              ==> Add(start, geo.directions[i]) in ValidMoves(b, start, n, geo)
    ensures forall i :: 0 <= i < |geo.directions| && IsJump(b, start, geo.directions[i])
              && Add(Add(start, geo.directions[i]), geo.directions[i]) in AllowedZone(geo, n)
              ==> Add(Add(start, geo.directions[i]), geo.directions[i]) in ValidMoves(b, start, n, geo)
  {
  }

  /** Every landing in the scan is a plain step or a single jump in some
      direction, or was appended by the jump-chain helper. */
  lemma {:induction false} ScanSound(b: Board, start: Coor, dirs: seq<Coor>, n: int, jump: JumpChain, x: Coor)
    requires x in Scan(b, start, dirs, n, jump)
    ensures exists i :: 0 <= i < |dirs| &&
              ((IsStep(b, start, dirs[i]) && x == Add(start, dirs[i])) ||
               (IsJump(b, start, dirs[i]) && (x == Add(Add(start, dirs[i]), dirs[i]) ||
                 exists pre :: pre <= Scan(b, start, dirs, n, jump) &&
                   x in jump(pre, b, Add(Add(start, dirs[i]), dirs[i]), dirs[i], n))))
  {
    var last := dirs[..|dirs| - 1];
    var d := dirs[|dirs| - 1];
    var before := Scan(b, start, last, n, jump);
    var i := |dirs| - 1;
    ScanPrefix(b, start, dirs, n, jump, |dirs| - 1);
    assert dirs[..|dirs| - 1] == last;
    if x in before {
      ScanSound(b, start, last, n, jump, x);
      var i' :| 0 <= i' < |last| &&
              ((IsStep(b, start, last[i']) && x == Add(start, last[i'])) ||
               (IsJump(b, start, last[i']) && (x == Add(Add(start, last[i']), last[i']) ||
                 exists pre :: pre <= Scan(b, start, last, n, jump) &&
                   x in jump(pre, b, Add(Add(start, last[i']), last[i']), last[i'], n))));
      assert last[i'] == dirs[i'];
    } else if IsStep(b, start, d) {
      assert x == Add(start, dirs[i]);
    } else {
      assert IsJump(b, start, d);
      var j := Add(Add(start, d), d);
      var withJ := before + [j];
      assert Scan(b, start, dirs, n, jump) == withJ + jump(withJ, b, j, d, n);
      assert withJ <= Scan(b, start, dirs, n, jump);
      if x != j {
        assert x in jump(withJ, b, j, d, n);
      }
    }
  }
}
