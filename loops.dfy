/** The bookkeeping around a game: the player-list setup of the gameplay
    and training loops, `exactly_one_is_human`, and the turn rotation with
    the removal of a winner when three play. The moves themselves and the
    checkWin verdicts are inputs here: each turn is given as the move the
    mover commits and whether checkWin then holds for the mover. */
module Loops {
  import opened Hex
  import opened SeqUtil
  import opened Players
  import Replay

  // ----- exactly_one_is_human -----

  /** exactly_one_is_human(players): true iff exactly one player is human. */
  method ExactlyOneIsHuman(players: seq<Player>) returns (b: bool)
    ensures b <==> exists i :: 0 <= i < |players| && players[i].kind == Human &&
                     forall j :: 0 <= j < |players| && j != i ==> players[j].kind != Human
  {
    b := false;
    for k := 0 to |players|
      invariant b <==> exists i :: 0 <= i < k && players[i].kind == Human
      invariant forall i, j :: 0 <= i < j < k && players[i].kind == Human ==> players[j].kind != Human
    {
      if !b && players[k].kind == Human {
        b := true;
      } else if b && players[k].kind == Human {
        return false;
      }
    }
  }

  // ----- Player-list setup -----

  /** The players of a list that may hold `None`, in list order. */
  function Present(s: seq<Option<Player>>): (r: seq<Player>)
    ensures forall i :: 0 <= i < |r| ==> Some(r[i]) in s
    ensures forall i :: 0 <= i < |s| && s[i].Some? ==> s[i].value in r
    ensures |r| <= |s|
    decreases |s|
  {
    if s == [] then []
    else
      var init := Present(s[..|s| - 1]);
      assert forall i :: 0 <= i < |s| - 1 ==> s[..|s| - 1][i] == s[i];
      if s[|s| - 1].Some? then init + [s[|s| - 1].value] else init
  }

  lemma {:induction false} PresentConcat(a: seq<Option<Player>>, b: seq<Option<Player>>)
    ensures Present(a + b) == Present(a) + Present(b)
    decreases |b|
  {
    if b != [] {
      assert (a + b)[..|a + b| - 1] == a + b[..|b| - 1];
      PresentConcat(a, b[..|b| - 1]);
    } else {
      assert a + b == a;
    }
  }

  /** `players.remove(None)` keeps the players and their order. */
  lemma RemoveNoneKeeps(s: seq<Option<Player>>)
    requires None in s
    ensures Present(RemoveFirst(s, None)) == Present(s)
  {
    var k := IndexOf(s, None);
    assert s == s[..k] + [None] + s[k + 1..];
    PresentConcat(s[..k], s[k + 1..]);
    PresentConcat(s[..k] + [None], s[k + 1..]);
    PresentConcat(s[..k], [None]);
    assert Present([None]) == [];
  }

  /** A list without `None` is its players, each wrapped. */
  lemma {:induction false} AllPresent(s: seq<Option<Player>>)
    requires None !in s
    ensures |Present(s)| == |s| && forall i :: 0 <= i < |s| ==> s[i] == Some(Present(s)[i])
    decreases |s|
  {
    if s != [] {
      AllPresent(s[..|s| - 1]);
    }
  }

  /** `while None in players: players.remove(None)`. */
  method DropNones(s: seq<Option<Player>>) returns (r: seq<Option<Player>>)
    ensures None !in r
    ensures Present(r) == Present(s)
  {
    r := s;
    while None in r
      invariant Present(r) == Present(s)
      decreases |r|
    {
      RemoveNoneKeeps(r);
      r := RemoveFirst(r, None);
    }
  }

  /** `copy.deepcopy` of a list of players: a new player per entry, with
      the kind, number and win flag of the original. */
  method CopyAll(ps: seq<Player>) returns (c: seq<Player>)
    ensures |c| == |ps| && NoDup(c)
    ensures forall i :: 0 <= i < |c| ==> fresh(c[i])
    ensures forall i :: 0 <= i < |c| ==>
              c[i].kind == ps[i].kind && c[i].playerNum == ps[i].playerNum && c[i].hasWon == ps[i].hasWon
  {
    c := [];
    for i := 0 to |ps|
      invariant |c| == i && NoDup(c)
      invariant forall j :: 0 <= j < i ==> fresh(c[j])
      invariant forall j :: 0 <= j < i ==>
                  c[j].kind == ps[j].kind && c[j].playerNum == ps[j].playerNum && c[j].hasWon == ps[j].hasWon
    {
      var q := new Player(ps[i].kind);
      q.playerNum := ps[i].playerNum;
      q.hasWon := ps[i].hasWon;
      c := c + [q];
    }
  }

  /** What the setup at the head of gameplayLoop produces: the numbered
      players, or the IndexError that `players[1]` raises when fewer than
      two players remain. */
  datatype Setup = Ready(players: seq<Player>) | SetupIndexError

  /** The setup of gameplayLoop: copy the list, drop every `None`, keep
      the first three players and number them 1, 2 (and 3). The copies
      leave the caller's players untouched. */
  method Normalise(playerss: seq<Option<Player>>) returns (r: Setup)
    ensures r.SetupIndexError? <==> |Present(playerss)| < 2
    ensures r.Ready? ==>
              var src := Present(playerss);
              |r.players| == (if |src| > 3 then 3 else |src|) && NoDup(r.players) &&
              forall i :: 0 <= i < |r.players| ==>
                fresh(r.players[i]) && r.players[i].playerNum == i + 1 &&
                r.players[i].kind == src[i].kind && r.players[i].hasWon == src[i].hasWon
  {
    var kept := DropNones(playerss);
    var players := CopyAll(Present(kept));
    if |players| > 3 {
      players := FirstThree(players);
    }
    if |players| < 2 {
      return SetupIndexError;
    }
    NumberFirstSeats(players);
    r := Ready(players);
  }

  /** `players[:3]`. */
  function FirstThree(ps: seq<Player>): (r: seq<Player>)
    requires |ps| > 3
    ensures |r| == 3 && forall i :: 0 <= i < 3 ==> r[i] == ps[i]
    ensures NoDup(ps) ==> NoDup(r)
  {
    ps[..3]
  }

  /** `players[0].setPlayerNum(1)`, `players[1].setPlayerNum(2)` and, with
      three players, `players[2].setPlayerNum(3)`. */
  method NumberFirstSeats(players: seq<Player>)
    requires 2 <= |players| <= 3 && NoDup(players)
    modifies set p | p in players
    ensures forall i :: 0 <= i < |players| ==> players[i].playerNum == i + 1 && players[i].hasWon == old(players[i].hasWon)
  {
    players[0].SetPlayerNum(1);
    players[1].SetPlayerNum(2);
    if |players| == 3 {
      players[2].SetPlayerNum(3);
    }
  }

  /** The setup of trainingLoop: it fails its assertion if any player is
      human; otherwise it numbers the players by position. A player listed
      twice keeps the number of its last position. */
  method TrainingSetup(players: seq<Player>) returns (ok: bool)
    modifies set p | p in players
    ensures ok <==> forall i :: 0 <= i < |players| ==> players[i].kind != Human
    ensures !ok ==> forall p :: p in players ==> p.playerNum == old(p.playerNum)
    ensures forall p :: p in players ==> p.hasWon == old(p.hasWon)
    ensures ok ==> forall i :: 0 <= i < |players| ==>
                     i < players[i].playerNum <= |players| && players[players[i].playerNum - 1] == players[i]
    ensures ok && NoDup(players) ==> forall i :: 0 <= i < |players| ==> players[i].playerNum == i + 1
  {
    ok := NoHumans(players);
    if ok {
      NumberBySeat(players);
      if NoDup(players) {
        forall i | 0 <= i < |players|
          ensures players[i].playerNum == i + 1
        {
          var j := players[i].playerNum - 1;
          assert players[j] == players[i];
        }
      }
    }
  }

  /** The assertion loop of trainingLoop: true iff no player is human. */
  method NoHumans(players: seq<Player>) returns (ok: bool)
    ensures ok <==> forall i :: 0 <= i < |players| ==> players[i].kind != Human
  {
    for k := 0 to |players|
      invariant forall i :: 0 <= i < k ==> players[i].kind != Human
    {
      if players[k].kind == Human {
        return false;
      }
    }
    return true;
  }

  /** `for i in range(len(players)): players[i].setPlayerNum(i + 1)`: each
      player ends up with the number of the last position it holds. */
  method NumberBySeat(players: seq<Player>)
    modifies set p | p in players
    ensures forall p :: p in players ==> p.hasWon == old(p.hasWon)
    ensures forall i :: 0 <= i < |players| ==>
              i < players[i].playerNum <= |players| && players[players[i].playerNum - 1] == players[i]
  {
    for k := 0 to |players|
      invariant forall p :: p in players ==> p.hasWon == old(p.hasWon)
      invariant forall i :: 0 <= i < k ==> i < players[i].playerNum <= k && players[players[i].playerNum - 1] == players[i]
    {
      players[k].SetPlayerNum(k + 1);
    }
  }

  // ----- Turn rotation -----

  /** The state of a turn loop: the players still playing, the index of
      the one to move, the winners so far, whether the loop has returned,
      and how many turns have been played. */
  datatype Table<P> = Table(seats: seq<P>, index: int, winners: seq<P>, over: bool, played: nat)

  predicate Ok<P>(t: Table<P>) {
    0 <= t.index < |t.seats|
  }

  /** The table before the first turn. */
  function Start<P>(seats: seq<P>): Table<P> {
    Table(seats, 0, [], false, 0)
  }

  /** `if i >= len(players) - 1: i = 0 else: i += 1`. */
  function NextIndex(i: int, len: int): (j: int)
    requires 0 <= i && 1 <= len
    ensures 0 <= j < len
  {
    if i >= len - 1 then 0 else i + 1
  }

  /** From a seat of the table, the index moves one seat on, round the
      table. */
  lemma NextIndexRound(i: int, len: int)
    requires 0 <= i < len
    ensures NextIndex(i, len) == (i + 1) % len
  {
    if i + 1 < len {
      ModUnique(i + 1, len, 0, i + 1);
    } else {
      ModUnique(i + 1, len, 1, 0);
    }
  }

  /** One turn: the mover has committed a move and checkWin has answered
      `won`. With two players a win ends the loop; with three the winner
      leaves the table and the index advances over the shortened list. */
  function TakeTurn<P(==)>(t: Table<P>, won: bool): (r: Table<P>)
    requires Ok(t)
    ensures Ok(r) && r.played == t.played + 1
  {
    var mover := t.seats[t.index];
    if won && |t.seats| == 2 then
      t.(winners := t.winners + [mover], over := true, played := t.played + 1)
    else if won && |t.seats| == 3 then
      var seats := RemoveFirst(t.seats, mover);
      Table(seats, NextIndex(t.index, |seats|), t.winners + [mover], false, t.played + 1)
    else
      t.(index := NextIndex(t.index, |t.seats|), played := t.played + 1)
  }

  /** The table after the turns whose checkWin verdicts are `ws`, up to the
      turn at which the loop returns. */
  function Play<P(==)>(t: Table<P>, ws: seq<bool>): (r: Table<P>)
    requires Ok(t)
    ensures Ok(r) && r.played <= t.played + |ws|
    decreases |ws|
  {
    if ws == [] then t
    else
      var p := Play(t, ws[..|ws| - 1]);
      if p.over then p else TakeTurn(p, ws[|ws| - 1])
  }

  /** Once the loop has returned, later verdicts change nothing. */
  lemma {:induction false} OverStays<P>(t: Table<P>, ws: seq<bool>)
    requires Ok(t) && t.over
    ensures Play(t, ws) == t
    decreases |ws|
  {
    if ws != [] {
      OverStays(t, ws[..|ws| - 1]);
    }
  }

  /** Playing a + b is playing a, then b. */
  lemma {:induction false} PlayConcat<P>(t: Table<P>, a: seq<bool>, b: seq<bool>)
    requires Ok(t)
    ensures Play(t, a + b) == Play(Play(t, a), b)
    decreases |b|
  {
    if b == [] {
      assert a + b == a;
    } else {
      assert (a + b)[..|a + b| - 1] == a + b[..|b| - 1];
      PlayConcat(t, a, b[..|b| - 1]);
    }
  }

  lemma {:induction false} MulAtLeast(d: int, len: int)
    requires 1 <= d && 1 <= len
    ensures d * len >= len
  {
    if d > 1 {
      MulAtLeast(d - 1, len);
      assert d * len == (d - 1) * len + len;
    }
  }

  /** The remainder is the r of any a == q * len + r with 0 <= r < len. */
  lemma ModUnique(a: int, len: int, q: int, r: int)
    requires 1 <= len && 0 <= r < len && a == q * len + r
    ensures a % len == r
  {
    var q0, r0 := a / len, a % len;
    assert a == q0 * len + r0;
    assert (q - q0) * len == r0 - r;
    if q > q0 {
      MulAtLeast(q - q0, len);
    } else if q < q0 {
      MulAtLeast(q0 - q, len);
    }
  }

  /** The loop stops after i turns when the verdicts run out or the loop
      has returned; either way the table is that of all the verdicts. */
  lemma PlayStops<P>(t: Table<P>, ws: seq<bool>, i: int)
    requires Ok(t) && 0 <= i <= |ws| && (i == |ws| || Play(t, ws[..i]).over)
    ensures Play(t, ws) == Play(t, ws[..i])
  {
    if i < |ws| {
      SplitAtPlay(t, ws, i);
      OverStays(Play(t, ws[..i]), ws[i..]);
    } else {
      assert ws[..i] == ws;
    }
  }

  /** Playing ws is playing up to turn k, turn k, then the rest. */
  lemma SplitAt<P>(t: Table<P>, ws: seq<bool>, k: int)
    requires Ok(t) && 0 <= k < |ws|
    ensures Play(t, ws) == Play(Play(t, ws[..k + 1]), ws[k + 1..])
  {
    SplitAtPlay(t, ws, k + 1);
  }

  /** Playing ws is playing its first i verdicts, then the others. */
  lemma SplitAtPlay<P>(t: Table<P>, ws: seq<bool>, i: int)
    requires Ok(t) && 0 <= i <= |ws|
    ensures Play(t, ws) == Play(Play(t, ws[..i]), ws[i..])
  {
    assert ws == ws[..i] + ws[i..];
    PlayConcat(t, ws[..i], ws[i..]);
  }

  /** The first win at a table of two ends the loop with that mover added
      to the winners. */
  lemma WinAtTwo<P>(t: Table<P>, ws: seq<bool>, k: int)
    requires Ok(t) && |t.seats| == 2 && !t.over
    requires 0 <= k < |ws| && ws[k] && true !in ws[..k]
    ensures var i := Around(t.index, k, 2);
            Play(t, ws[..k + 1]) == t.(winners := t.winners + [t.seats[i]], index := i, over := true, played := t.played + k + 1)
  {
    PlayStep(t, ws, k);
    RotatePlay(t, ws[..k]);
    TwoSeatWin(Play(t, ws[..k]));
  }

  /** Turn k is played on the table left by the turns before it. */
  lemma PlayStep<P>(t: Table<P>, ws: seq<bool>, k: int)
    requires Ok(t) && 0 <= k < |ws|
    ensures Play(t, ws[..k + 1]) == (var p := Play(t, ws[..k]); if p.over then p else TakeTurn(p, ws[k]))
  {
    assert ws[..k + 1][..k] == ws[..k];
  }

  /** A win at a table of two ends the loop. */
  lemma TwoSeatWin<P>(t: Table<P>)
    requires Ok(t) && |t.seats| == 2 && !t.over
    ensures TakeTurn(t, true) == t.(winners := t.winners + [t.seats[t.index]], over := true, played := t.played + 1)
  {
  }

  lemma ModNext(a: int, len: int)
    requires 0 <= a && 1 <= len
    ensures (a % len + 1) % len == (a + 1) % len
  {
    var q, r := a / len, a % len;
    assert a == q * len + r;
    if r + 1 < len {
      ModUnique(a + 1, len, q, r + 1);
      ModUnique(r + 1, len, 0, r + 1);
    } else {
      assert a + 1 == (q + 1) * len + 0;
      ModUnique(a + 1, len, q + 1, 0);
      ModUnique(r + 1, len, 1, 0);
    }
  }

  /** The seat reached from seat i of a table of len after k turns that
      remove nobody. */
  function Around(i: int, k: nat, len: int): (j: int)
    requires 0 <= i < len
    ensures 0 <= j < len
    decreases k
  {
    if k == 0 then i else NextIndex(Around(i, k - 1, len), len)
  }

  /** The k-th seat after i is (i + k) mod len. */
  lemma {:induction false} AroundIsMod(i: int, k: nat, len: int)
    requires 0 <= i < len
    ensures Around(i, k, len) == (i + k) % len
    decreases k
  {
    if k == 0 {
      ModUnique(i, len, 0, i);
    } else {
      AroundIsMod(i, k - 1, len);
      NextIndexRound(Around(i, k - 1, len), len);
      ModNext(i + k - 1, len);
    }
  }

  /** A turn that removes nobody and does not end the loop moves the
      index one seat on. */
  lemma RotateStep<P>(t: Table<P>, won: bool)
    requires Ok(t) && !t.over
    requires (|t.seats| != 2 && |t.seats| != 3) || !won
    ensures TakeTurn(t, won) == t.(index := NextIndex(t.index, |t.seats|), played := t.played + 1)
  {
  }

  /** While no turn removes a player or ends the loop, the index runs
      round the table. */
  lemma {:induction false} RotatePlay<P>(t: Table<P>, ws: seq<bool>)
    requires Ok(t) && !t.over
    requires (|t.seats| != 2 && |t.seats| != 3) || true !in ws
    ensures Play(t, ws) == t.(index := Around(t.index, |ws|, |t.seats|), played := t.played + |ws|)
    decreases |ws|
  {
    if ws != [] {
      var init, last := ws[..|ws| - 1], ws[|ws| - 1];
      assert true !in ws ==> true !in init && !last;
      RotatePlay(t, init);
      RotateStep(Play(t, init), last);
    }
  }

  /** With two players at the table, the loop returns exactly when some
      checkWin holds, at the first such turn, adding that mover and no
      one else to the winners. */
  lemma TwoSeatPlay<P>(t: Table<P>, ws: seq<bool>)
    requires Ok(t) && |t.seats| == 2 && !t.over
    ensures Play(t, ws).seats == t.seats
    ensures Play(t, ws).over <==> true in ws
    ensures true in ws ==>
              Play(t, ws).winners == t.winners + [t.seats[Around(t.index, IndexOf(ws, true), 2)]] &&
              Play(t, ws).played == t.played + IndexOf(ws, true) + 1
    ensures true !in ws ==> Play(t, ws).winners == t.winners && Play(t, ws).played == t.played + |ws|
  {
    if true in ws {
      var k := IndexOf(ws, true);
      SplitAt(t, ws, k);
      WinAtTwo(t, ws, k);
      OverStays(Play(t, ws[..k + 1]), ws[k + 1..]);
    } else {
      RotatePlay(t, ws);
    }
  }

  /** Two players: the loop returns at the first turn whose mover wins,
      with that mover as the only winner; until then the two alternate,
      starting with the first. */
  lemma TwoPlayerGame<P>(s: seq<P>, ws: seq<bool>)
    requires |s| == 2
    ensures Play(Start(s), ws).over <==> true in ws
    ensures true in ws ==>
              Play(Start(s), ws).winners == [s[IndexOf(ws, true) % 2]] &&
              Play(Start(s), ws).played == IndexOf(ws, true) + 1
  {
    TwoSeatPlay(Start(s), ws);
    if true in ws {
      AroundIsMod(0, IndexOf(ws, true), 2);
    }
  }

  /** Three players, first win: the mover of the first winning turn k,
      seat k mod 3, is recorded as the first winner, at index 0, and leaves
      the table; if no other win follows, that mover is the only winner and
      every turn is played. */
  lemma ThreePlayerFirstWin<P>(s: seq<P>, ws: seq<bool>)
    requires |s| == 3 && NoDup(s) && true in ws
    ensures var k := IndexOf(ws, true);
            var r := Play(Start(s), ws);
            |r.winners| >= 1 && r.winners[0] == s[k % 3] && r.seats == RemoveFirst(s, s[k % 3]) &&
            (!r.over ==> |r.winners| == 1 && r.played == |ws|)
  {
    var k := IndexOf(ws, true);
    AfterFirstWin(s, ws);
    TwoSeatPlay(FirstWinTable(s, k), ws[k + 1..]);
  }

  /** Three players, end of the game: the loop returns exactly when a
      second win follows the first; its mover is the second winner, a
      player other than the first winner, and the loop stops at that
      turn. */
  lemma ThreePlayerEnd<P>(s: seq<P>, ws: seq<bool>)
    requires |s| == 3 && NoDup(s) && true in ws
    ensures var k := IndexOf(ws, true);
            var r := Play(Start(s), ws);
            (r.over <==> true in ws[k + 1..]) &&
            (r.over ==> |r.winners| == 2 && r.winners[1] in s && r.winners[1] != r.winners[0] &&
                        r.played == k + 2 + IndexOf(ws[k + 1..], true))
  {
    var k := IndexOf(ws, true);
    AfterFirstWin(s, ws);
    RemoveFirstDrops(s, s[k % 3]);
    TwoSeatPlay(FirstWinTable(s, k), ws[k + 1..]);
  }

  /** The table right after the first of three players wins at turn k. */
  function FirstWinTable<P(==)>(s: seq<P>, k: nat): (t: Table<P>)
    requires |s| == 3
    ensures Ok(t) && |t.seats| == 2 && !t.over
  {
    Table(RemoveFirst(s, s[k % 3]), NextIndex(k % 3, 2), [s[k % 3]], false, k + 1)
  }

  /** A three-player game is its first win followed by a two-player game
      between the others. */
  lemma AfterFirstWin<P>(s: seq<P>, ws: seq<bool>)
    requires |s| == 3 && true in ws
    ensures var k := IndexOf(ws, true);
            Play(Start(s), ws) == Play(FirstWinTable(s, k), ws[k + 1..])
  {
    var k := IndexOf(ws, true);
    SplitAt(Start(s), ws, k);
    FirstWinOfThree(s, ws, k);
  }

  /** The first win among three players, at turn k, takes the mover of
      seat k mod 3 off the table and records it as the first winner. */
  lemma FirstWinOfThree<P>(s: seq<P>, ws: seq<bool>, k: int)
    requires |s| == 3 && 0 <= k < |ws| && ws[k] && true !in ws[..k]
    ensures Play(Start(s), ws[..k + 1]) == FirstWinTable(s, k)
  {
    PlayStep(Start(s), ws, k);
    RotatePlay(Start(s), ws[..k]);
    AroundIsMod(0, k, 3);
    var p := Table(s, k % 3, [], false, k);
    assert Play(Start(s), ws[..k]) == p;
    assert TakeTurn(p, true) == FirstWinTable(s, k);
  }

  /** Until the first win the players move in list order, round the
      table. With a number of players other than 2 or 3 this goes on
      forever: nobody is ever recorded as a winner and the loop never
      returns. */
  lemma RoundRobin<P>(s: seq<P>, ws: seq<bool>)
    requires 1 <= |s| && ((|s| != 2 && |s| != 3) || true !in ws)
    ensures Play(Start(s), ws) == Start(s).(index := |ws| % |s|, played := |ws|)
  {
    RotatePlay(Start(s), ws);
    AroundIsMod(0, |ws|, |s|);
  }

  /** After the first of three players wins from seat i, the index moves
      past the winner's old seat in the shortened list: when the winner was
      not the last seat, the player who sat right after the winner is
      skipped once. */
  lemma NextAfterWinner<P>(s: seq<P>, i: int)
    requires |s| == 3 && NoDup(s) && 0 <= i < 3
    ensures var rest := RemoveFirst(s, s[i]);
            rest[NextIndex(i, 2)] == (if i == 2 then s[0] else s[(i + 2) % 3])
  {
    assert IndexOf(s, s[i]) == i;
  }

  // ----- The turn loop -----

  /** One turn as the loop sees it: the move the mover commits and whether
      checkWin(mover) then holds. */
  datatype Turn = Turn(start: Coor, end: Coor, won: bool)

  function Wins(turns: seq<Turn>): (ws: seq<bool>)
    ensures |ws| == |turns| && forall i :: 0 <= i < |turns| ==> ws[i] == turns[i].won
  {
    seq(|turns|, i requires 0 <= i < |turns| => turns[i].won)
  }

  /** One record line per committed move, `str(start) + sep + str(end)`. */
  function Lines(turns: seq<Turn>, sep: string): (ls: seq<string>)
    ensures |ls| == |turns| &&
            forall i :: 0 <= i < |turns| ==> ls[i] == Replay.MoveLine(turns[i].start, turns[i].end, sep)
  {
    seq(|turns|, i requires 0 <= i < |turns| => Replay.MoveLine(turns[i].start, turns[i].end, sep))
  }

  lemma LinesSnoc(turns: seq<Turn>, i: int, sep: string)
    requires 0 <= i < |turns|
    ensures Lines(turns[..i + 1], sep) == Lines(turns[..i], sep) + [Replay.MoveLine(turns[i].start, turns[i].end, sep)]
  {
  }

  /** The end of one turn, once checkWin has answered `won`: a winner is
      flagged `has_won` and its number recorded; the table then follows
      TakeTurn. */
  method Settle(t: Table<Player>, won: bool, winners: seq<int>) returns (t': Table<Player>, winners': seq<int>)
    requires Ok(t)
    requires |winners| == |t.winners| && forall w :: 0 <= w < |winners| ==> winners[w] == t.winners[w].playerNum
    modifies t.seats[t.index]
    ensures t' == TakeTurn(t, won)
    ensures |winners'| == |t'.winners| && forall w :: 0 <= w < |winners'| ==> winners'[w] == t'.winners[w].playerNum
    ensures forall p :: p in t'.seats ==> p in t.seats
    ensures t'.winners == t.winners || t'.winners == t.winners + [t.seats[t.index]]
    ensures t.seats[t.index].playerNum == old(t.seats[t.index].playerNum)
    ensures t.seats[t.index].hasWon == (old(t.seats[t.index].hasWon) || t'.winners != t.winners)
  {
    var mover := t.seats[t.index];
    winners' := winners;
    if won && (|t.seats| == 2 || |t.seats| == 3) {
      mover.hasWon := true;
      winners' := winners + [mover.playerNum];
    }
    t' := TakeTurn(t, won);
  }

  /** The turn loop of gameplayLoop (sep "to") and of trainingLoop (sep " ",
      with recordReplay), over the given turns, up to the return. The
      state follows Play; the record is the player count followed by one
      line per played turn; the winners are recorded by number and flagged
      `has_won`; nobody's number changes. */
  method PlayTurns(players: seq<Player>, turns: seq<Turn>, sep: string)
      returns (winners: seq<int>, record: seq<string>, t: Table<Player>)
    requires 1 <= |players|
    modifies set p | p in players
    ensures t == Play(Start(players), Wins(turns))
    ensures record == [Replay.IntString(|players|)] + Lines(turns[..t.played], sep)
    ensures |winners| == |t.winners| && forall w :: 0 <= w < |winners| ==> winners[w] == t.winners[w].playerNum
    ensures forall p :: p in players ==> p.playerNum == old(p.playerNum)
    ensures forall p :: p in players ==> p.hasWon == (old(p.hasWon) || p in t.winners)
  {
    t := Start(players);
    winners := [];
    record := [Replay.IntString(|players|)];
    var i := 0;
    while i < |turns| && !t.over
      invariant 0 <= i <= |turns|
      invariant Reached(players, turns, sep, i, t, winners, record)
      invariant forall p :: p in players ==> p.playerNum == old(p.playerNum)
      invariant forall p :: p in players ==> p.hasWon == (old(p.hasWon) || p in t.winners)
    {
      t, winners, record := PlayOneTurn(players, turns, sep, i, t, winners, record);
      i := i + 1;
    }
    PlayStops(Start(players), Wins(turns), i);
  }

  /** Where the turn loop stands after i turns: the table follows Play, the
      record holds one line per turn, everyone seated or won is a player,
      and the winners are listed by number. */
  ghost predicate Reached(players: seq<Player>, turns: seq<Turn>, sep: string, i: nat, t: Table<Player>,
                          winners: seq<int>, record: seq<string>)
    reads set p | p in t.winners
  {
    1 <= |players| && i <= |turns| && t.played == i &&
    t == Play(Start(players), Wins(turns)[..i]) &&
    record == [Replay.IntString(|players|)] + Lines(turns[..i], sep) &&
    (forall p :: p in t.seats ==> p in players) &&
    (forall p :: p in t.winners ==> p in players) &&
    |winners| == |t.winners| && forall w :: 0 <= w < |winners| ==> winners[w] == t.winners[w].playerNum
  }

  /** One pass of the turn loop: record the move, then settle the turn. */
  method PlayOneTurn(players: seq<Player>, turns: seq<Turn>, sep: string, i: nat, t: Table<Player>,
               winners: seq<int>, record: seq<string>)
      returns (t': Table<Player>, winners': seq<int>, record': seq<string>)
    requires i < |turns| && !t.over
    requires Reached(players, turns, sep, i, t, winners, record)
    requires forall p :: p in t.winners ==> p.hasWon
    modifies t.seats[t.index]
    ensures t.seats[t.index] in players
    ensures Reached(players, turns, sep, i + 1, t', winners', record')
    ensures forall p :: p in t.winners ==> p in t'.winners
    ensures t.seats[t.index].playerNum == old(t.seats[t.index].playerNum)
    ensures t.seats[t.index].hasWon == (old(t.seats[t.index].hasWon) || t.seats[t.index] in t'.winners)
    ensures forall p :: p in t'.winners ==> p in t.winners || p == t.seats[t.index]
  {
    record' := record + [Replay.MoveLine(turns[i].start, turns[i].end, sep)];
    LinesSnoc(turns, i, sep);
    PlayStep(Start(players), Wins(turns), i);
    t', winners' := Settle(t, turns[i].won, winners);
  }
}
