/** The players: the base record every player carries (its number and
    whether it has won) and the move rules of the four bots. A bot receives
    `allMovesDict` of its player (subjective coordinates), sorts the moves
    into forward and sideways ones, and picks one; the pick is turned back
    into objective coordinates at the end. */
module Players {
  import opened Hex
  import opened SeqUtil
  import opened Moves
  import opened Engine

  /** What a pick ends with: a move in subjective coordinates, a
      `random.choice` on an empty list (IndexError), a scan that never
      assigned its running best and returns the empty tuples, or a player
      number with no piece set (the KeyError of `pieces[playerNum]`). */
  datatype Pick = Move(start: Coor, end: Coor) | EmptyChoice | NoChoice | NoSuchPlayer(num: int)

  /** The two classes of destination the bots look at: one that raises the
      row (`dest[1] > coor[1]`) and one that keeps it (`dest[1] == coor[1]`). */
  datatype Heading = Forward | Sideways

  predicate Goes(h: Heading, c: Coor, x: Coor) {
    if h == Forward then x.q > c.q else x.q == c.q
  }

  /** x is in the list stored under key c. */
  predicate InDict(d: MoveDict, c: Coor, x: Coor) {
    exists i :: 0 <= i < |d| && d[i].0 == c && x in d[i].1
  }

  /** Some move of d goes in direction h. */
  ghost predicate HasHeading(d: MoveDict, h: Heading) {
    exists c, x :: InDict(d, c, x) && Goes(h, c, x)
  }

  // ----- Sorting the moves -----

  /** The destinations of ds that go in direction h from c, in order. */
  function Keep(h: Heading, c: Coor, ds: seq<Coor>): (r: seq<Coor>)
    ensures forall x :: x in r <==> x in ds && Goes(h, c, x)
    decreases |ds|
  {
    if ds == [] then []
    else
      var init, last := ds[..|ds| - 1], ds[|ds| - 1];
      assert ds == init + [last];
      Keep(h, c, init) + (if Goes(h, c, last) then [last] else [])
  }

  /** The dictionary after the collecting loop: one entry per key with a
      non-empty list, holding the destinations that go in direction h
      (possibly none). */
  function Collected(moves: MoveDict, h: Heading): (r: MoveDict)
    ensures |r| <= |moves|
    ensures forall e, x :: e in r && x in e.1 ==> Goes(h, e.0, x)
    decreases |moves|
  {
    if moves == [] then []
    else
      var e := moves[|moves| - 1];
      Collected(moves[..|moves| - 1], h) + (if e.1 != [] then [(e.0, Keep(h, e.0, e.1))] else [])
  }

  /** The entries whose list is not empty, in order: what is left after
      `for coor in list(d): if d[coor] == []: del d[coor]`. */
  function NonEmpty(d: MoveDict): (r: MoveDict)
    ensures forall e :: e in r <==> e in d && e.1 != []
    decreases |d|
  {
    if d == [] then []
    else
      var init, last := d[..|d| - 1], d[|d| - 1];
      assert d == init + [last];
      NonEmpty(init) + (if last.1 != [] then [last] else [])
  }

  /** `forwardMoves` or `sidewaysMoves` once the empty entries are gone. */
  function Bucket(moves: MoveDict, h: Heading): (r: MoveDict)
    ensures forall e :: e in r ==> e.1 != []
    ensures forall e, x :: e in r && x in e.1 ==> Goes(h, e.0, x)
  {
    NonEmpty(Collected(moves, h))
  }

  /** The (start, destination) pairs of d in iteration order. */
  function Flatten(d: MoveDict): seq<(Coor, Coor)>
    decreases |d|
  {
    if d == [] then []
    else
      var e := d[|d| - 1];
      Flatten(d[..|d| - 1]) + Pairs(e.0, e.1)
  }

  function Pairs(c: Coor, xs: seq<Coor>): (ps: seq<(Coor, Coor)>)
    ensures |ps| == |xs| && forall i :: 0 <= i < |xs| ==> ps[i] == (c, xs[i])
  {
    seq(|xs|, i requires 0 <= i < |xs| => (c, xs[i]))
  }

  /** The pairs of ps that go in direction h, in order. */
  function FilterPairs(ps: seq<(Coor, Coor)>, h: Heading): seq<(Coor, Coor)>
    decreases |ps|
  {
    if ps == [] then []
    else
      var init, last := ps[..|ps| - 1], ps[|ps| - 1];
      FilterPairs(init, h) + (if Goes(h, last.0, last.1) then [last] else [])
  }

  lemma PairsSnoc(c: Coor, xs: seq<Coor>, j: int)
    requires 0 <= j < |xs|
    ensures Pairs(c, xs[..j + 1]) == Pairs(c, xs[..j]) + [(c, xs[j])]
  {
  }

  lemma InDictSnoc(d: MoveDict, e: (Coor, seq<Coor>))
    ensures forall c, x :: InDict(d + [e], c, x) <==> InDict(d, c, x) || (c == e.0 && x in e.1)
  {
    forall c, x | InDict(d + [e], c, x)
      ensures InDict(d, c, x) || (c == e.0 && x in e.1)
    {
      var i :| 0 <= i < |d + [e]| && (d + [e])[i].0 == c && x in (d + [e])[i].1;
      if i < |d| {
        assert d[i] == (d + [e])[i];
      }
    }
    forall c, x | InDict(d, c, x)
      ensures InDict(d + [e], c, x)
    {
      var i :| 0 <= i < |d| && d[i].0 == c && x in d[i].1;
      assert (d + [e])[i] == d[i];
    }
    assert (d + [e])[|d|] == e;
  }

  /** A bucket holds exactly the moves of the dictionary that go in its
      direction, and none of its lists is empty. */
  lemma {:induction false} BucketMembers(moves: MoveDict, h: Heading)
    ensures forall c, x :: InDict(Bucket(moves, h), c, x) <==> InDict(moves, c, x) && Goes(h, c, x)
    ensures forall e :: e in Bucket(moves, h) ==> e.1 != []
  {
    CollectedMembers(moves, h);
    var b := Bucket(moves, h);
    var s := Collected(moves, h);
    forall c, x | InDict(b, c, x)
      ensures InDict(s, c, x)
    {
      var i :| 0 <= i < |b| && b[i].0 == c && x in b[i].1;
      assert b[i] in s;
      var j :| 0 <= j < |s| && s[j] == b[i];
    }
    forall c, x | InDict(s, c, x)
      ensures InDict(b, c, x)
    {
      var j :| 0 <= j < |s| && s[j].0 == c && x in s[j].1;
      assert s[j] in b;
      var i :| 0 <= i < |b| && b[i] == s[j];
    }
  }

  lemma {:induction false} CollectedMembers(moves: MoveDict, h: Heading)
    ensures forall c, x :: InDict(Collected(moves, h), c, x) <==> InDict(moves, c, x) && Goes(h, c, x)
    decreases |moves|
  {
    if moves != [] {
      var init, e := moves[..|moves| - 1], moves[|moves| - 1];
      assert moves == init + [e];
      CollectedMembers(init, h);
      InDictSnoc(init, e);
      if e.1 != [] {
        InDictSnoc(Collected(init, h), (e.0, Keep(h, e.0, e.1)));
      } else {
        assert Collected(moves, h) == Collected(init, h);
      }
    }
  }

  lemma FlattenSnoc(d: MoveDict, e: (Coor, seq<Coor>))
    ensures Flatten(d + [e]) == Flatten(d) + Pairs(e.0, e.1)
  {
    assert (d + [e])[..|d + [e]| - 1] == d;
  }

  /** Each pair of the flattened dictionary is a move stored in it, and
      each stored move is a pair of it. */
  lemma {:induction false} FlattenMembers(d: MoveDict)
    ensures forall c, x :: (c, x) in Flatten(d) <==> InDict(d, c, x)
    decreases |d|
  {
    if d != [] {
      var init, e := d[..|d| - 1], d[|d| - 1];
      assert d == init + [e];
      FlattenMembers(init);
      InDictSnoc(init, e);
      forall c, x
        ensures (c, x) in Pairs(e.0, e.1) <==> c == e.0 && x in e.1
      {
        if c == e.0 && x in e.1 {
          var i :| 0 <= i < |e.1| && e.1[i] == x;
          assert Pairs(e.0, e.1)[i] == (c, x);
        }
      }
    }
  }

  lemma {:induction false} FilterPairsConcat(a: seq<(Coor, Coor)>, b: seq<(Coor, Coor)>, h: Heading)
    ensures FilterPairs(a + b, h) == FilterPairs(a, h) + FilterPairs(b, h)
    decreases |b|
  {
    if b == [] {
      assert a + b == a;
    } else {
      var init, last := b[..|b| - 1], b[|b| - 1];
      assert a + b == (a + init) + [last];
      assert (a + b)[..|a + b| - 1] == a + init;
      FilterPairsConcat(a, init, h);
    }
  }

  lemma {:induction false} PairsKeep(h: Heading, c: Coor, ds: seq<Coor>)
    ensures Pairs(c, Keep(h, c, ds)) == FilterPairs(Pairs(c, ds), h)
    decreases |ds|
  {
    if ds != [] {
      var init, last := ds[..|ds| - 1], ds[|ds| - 1];
      PairsKeep(h, c, init);
      assert Pairs(c, ds)[..|ds| - 1] == Pairs(c, init);
      var tail := if Goes(h, c, last) then [last] else [];
      assert Pairs(c, Keep(h, c, init) + tail) == Pairs(c, Keep(h, c, init)) + Pairs(c, tail);
    }
  }

  lemma {:induction false} FlattenNonEmpty(d: MoveDict)
    ensures Flatten(NonEmpty(d)) == Flatten(d)
    decreases |d|
  {
    if d != [] {
      var init, e := d[..|d| - 1], d[|d| - 1];
      FlattenNonEmpty(init);
      if e.1 != [] {
        FlattenSnoc(NonEmpty(init), e);
      } else {
        assert NonEmpty(d) == NonEmpty(init);
        assert Pairs(e.0, e.1) == [];
      }
    }
  }

  /** A bucket lists the moves of its direction in the dictionary's own
      iteration order: its flattening is the flattening of the whole
      dictionary, filtered. */
  lemma {:induction false} BucketOrder(moves: MoveDict, h: Heading)
    ensures Flatten(Bucket(moves, h)) == FilterPairs(Flatten(moves), h)
    decreases |moves|
  {
    FlattenNonEmpty(Collected(moves, h));
    CollectedOrder(moves, h);
  }

  lemma {:induction false} CollectedOrder(moves: MoveDict, h: Heading)
    ensures Flatten(Collected(moves, h)) == FilterPairs(Flatten(moves), h)
    decreases |moves|
  {
    if moves != [] {
      var init, e := moves[..|moves| - 1], moves[|moves| - 1];
      CollectedOrder(init, h);
      FilterPairsConcat(Flatten(init), Pairs(e.0, e.1), h);
      PairsKeep(h, e.0, e.1);
      if e.1 != [] {
        FlattenSnoc(Collected(init, h), (e.0, Keep(h, e.0, e.1)));
      } else {
        assert Collected(moves, h) == Collected(init, h);
        assert Pairs(e.0, e.1) == [];
      }
    }
  }

  // ----- Keys -----

  lemma KeysSnoc(d: MoveDict, e: (Coor, seq<Coor>))
    ensures Keys(d + [e]) == Keys(d) + [e.0]
  {
  }

  lemma UniqueSnoc(d: MoveDict, e: (Coor, seq<Coor>))
    requires UniqueKeys(d) && e.0 !in Keys(d)
    ensures UniqueKeys(d + [e])
  {
    forall i, j | 0 <= i < j < |d + [e]|
      ensures (d + [e])[i].0 != (d + [e])[j].0
    {
      if j == |d| {
        assert (d + [e])[i].0 == Keys(d)[i];
      }
    }
  }

  /** The keys of the collected dictionary are keys of the input, so they
      stay unique. */
  lemma {:induction false} CollectedKeys(moves: MoveDict, h: Heading)
    requires UniqueKeys(moves)
    ensures UniqueKeys(Collected(moves, h))
    ensures forall k :: k in Keys(Collected(moves, h)) ==> k in Keys(moves)
    decreases |moves|
  {
    if moves != [] {
      var init, e := moves[..|moves| - 1], moves[|moves| - 1];
      assert moves == init + [e];
      KeysSnoc(init, e);
      assert UniqueKeys(init) by {
        forall i, j | 0 <= i < j < |init|
          ensures init[i].0 != init[j].0
        {
          assert init[i] == moves[i] && init[j] == moves[j];
        }
      }
      CollectedKeys(init, h);
      if e.1 != [] {
        var s := Collected(init, h);
        assert e.0 !in Keys(init) by {
          forall i | 0 <= i < |init|
            ensures init[i].0 != e.0
          {
            assert init[i] == moves[i] && e == moves[|moves| - 1];
          }
        }
        KeysSnoc(s, (e.0, Keep(h, e.0, e.1)));
        UniqueSnoc(s, (e.0, Keep(h, e.0, e.1)));
      } else {
        assert Collected(moves, h) == Collected(init, h);
      }
    }
  }

  /** The keys of the entries with non-empty lists, in order: the list
      `l` RandomBotPlayer builds. */
  function NonEmptyKeys(d: MoveDict): seq<Coor>
  {
    Keys(NonEmpty(d))
  }

  /** `d[k]`: the list stored under key k. */
  function Lookup(d: MoveDict, k: Coor): (r: seq<Coor>)
    requires k in Keys(d)
    ensures (k, r) in d
    ensures UniqueKeys(d) ==> forall i :: 0 <= i < |d| && d[i].0 == k ==> d[i].1 == r
  {
    if d[0].0 == k then d[0].1
    else
      var i :| 0 <= i < |d| && Keys(d)[i] == k;
      assert Keys(d[1..])[i - 1] == k;
      Lookup(d[1..], k)
  }

  // ----- The loops of the bots -----

  /** The collecting loop of GreedyRandomBotPlayer: `tempMoves[coor] = []`
      for each key with a non-empty list, then the destinations that go in
      direction h are appended to it. Keys are unique, so each assignment
      adds a new entry at the end. */
  method CollectHeading(moves: MoveDict, h: Heading) returns (temp: MoveDict)
    requires UniqueKeys(moves)
    ensures temp == Collected(moves, h)
  {
    temp := [];
    for i := 0 to |moves|
      invariant temp == Collected(moves[..i], h)
    {
      var coor := moves[i].0;
      var dests := moves[i].1;
      if dests != [] {
        var kept := KeepLoop(h, coor, dests);
        temp := temp + [(coor, kept)];
      }
      assert moves[..i + 1][..i] == moves[..i];
    }
    assert moves[..|moves|] == moves;
  }

  /** `for dest in moves[coor]: if ...: tempMoves[coor].append(dest)`. */
  method KeepLoop(h: Heading, coor: Coor, dests: seq<Coor>) returns (kept: seq<Coor>)
    ensures kept == Keep(h, coor, dests)
  {
    kept := [];
    for j := 0 to |dests|
      invariant kept == Keep(h, coor, dests[..j])
    {
      if Goes(h, coor, dests[j]) {
        kept := kept + [dests[j]];
      }
      assert dests[..j + 1][..j] == dests[..j];
    }
    assert dests[..|dests|] == dests;
  }

  /** The collecting loop of Greedy1BotPlayer and Greedy2BotPlayer, which
      fills `forwardMoves` and `sidewaysMoves` in one pass. */
  method CollectBoth(moves: MoveDict) returns (forward: MoveDict, sideways: MoveDict)
    requires UniqueKeys(moves)
    ensures forward == Collected(moves, Forward)
    ensures sideways == Collected(moves, Sideways)
  {
    forward, sideways := [], [];
    for i := 0 to |moves|
      invariant forward == Collected(moves[..i], Forward)
      invariant sideways == Collected(moves[..i], Sideways)
    {
      var coor := moves[i].0;
      var dests := moves[i].1;
      if dests != [] {
        var f, s := [], [];
        for j := 0 to |dests|
          invariant f == Keep(Forward, coor, dests[..j])
          invariant s == Keep(Sideways, coor, dests[..j])
        {
          if dests[j].q > coor.q {
            f := f + [dests[j]];
          }
          if dests[j].q == coor.q {
            s := s + [dests[j]];
          }
          assert dests[..j + 1][..j] == dests[..j];
        }
        assert dests[..|dests|] == dests;
        forward := forward + [(coor, f)];
        sideways := sideways + [(coor, s)];
      }
      assert moves[..i + 1][..i] == moves[..i];
    }
    assert moves[..|moves|] == moves;
  }

  /** `del d[k]`: the entry with key k leaves the dictionary. */
  function Delete(d: MoveDict, k: Coor): (r: MoveDict)
    ensures forall e :: e in r ==> e in d
    ensures k in Keys(d) ==> |r| == |d| - 1
  {
    if d == [] then []
    else if d[0].0 == k then d[1..]
    else [d[0]] + Delete(d[1..], k)
  }

  lemma {:induction false} DeleteAfter(a: MoveDict, e: (Coor, seq<Coor>), b: MoveDict)
    requires e.0 !in Keys(a)
    ensures Delete(a + [e] + b, e.0) == a + b
    decreases |a|
  {
    if a == [] {
      assert a + [e] + b == [e] + b;
    } else {
      var s := a + [e] + b;
      assert Keys(a)[0] == a[0].0;
      assert Keys(a[1..]) == Keys(a)[1..];
      assert s[0] == a[0] && s[1..] == a[1..] + [e] + b;
      DeleteAfter(a[1..], e, b);
      assert Delete(s, e.0) == [a[0]] + Delete(s[1..], e.0);
      assert a == [a[0]] + a[1..];
    }
  }

  /** `for coor in list(d): if d[coor] == []: del d[coor]`. */
  method DropEmpty(d: MoveDict) returns (r: MoveDict)
    requires UniqueKeys(d)
    ensures r == NonEmpty(d)
  {
    r := d;
    for i := 0 to |d|
      invariant r == NonEmpty(d[..i]) + d[i..]
    {
      DropStep(d, i);
      if d[i].1 == [] {
        r := Delete(r, d[i].0);
      }
    }
    assert d[..|d|] == d;
  }

  /** One round of the deleting loop: after the first i entries have been
      visited, visiting entry i deletes it exactly when its list is empty. */
  lemma DropStep(d: MoveDict, i: int)
    requires UniqueKeys(d) && 0 <= i < |d|
    ensures d[i].1 == [] ==> Delete(NonEmpty(d[..i]) + d[i..], d[i].0) == NonEmpty(d[..i + 1]) + d[i + 1..]
    ensures d[i].1 != [] ==> NonEmpty(d[..i]) + d[i..] == NonEmpty(d[..i + 1]) + d[i + 1..]
  {
    var pre, post := NonEmpty(d[..i]), d[i + 1..];
    assert d[..i + 1][..i] == d[..i] && d[..i + 1][i] == d[i];
    assert d[i..] == [d[i]] + post;
    if d[i].1 == [] {
      assert NonEmpty(d[..i + 1]) == pre;
      FreshKey(d, i);
      DeleteAfter(pre, d[i], post);
      assert pre + d[i..] == pre + [d[i]] + post;
    } else {
      assert NonEmpty(d[..i + 1]) == pre + [d[i]];
    }
  }

  /** In a dictionary, the key of entry i is not a key of the non-empty
      entries before it. */
  lemma FreshKey(d: MoveDict, i: int)
    requires UniqueKeys(d) && 0 <= i < |d|
    ensures d[i].0 !in Keys(NonEmpty(d[..i]))
  {
    forall k | 0 <= k < |NonEmpty(d[..i])|
      ensures NonEmpty(d[..i])[k].0 != d[i].0
    {
      var e := NonEmpty(d[..i])[k];
      assert e in d[..i];
      var m :| 0 <= m < i && d[m] == e;
    }
  }

  /** `coor = random.choice(list(d)); move = random.choice(d[coor])`. */
  method ChooseFrom(d: MoveDict) returns (r: Pick)
    ensures r.Move? ==> InDict(d, r.start, r.end)
    ensures d == [] ==> r == EmptyChoice
    ensures d != [] && (forall e :: e in d ==> e.1 != []) ==> r.Move?
    ensures !r.NoChoice?
    ensures !r.NoSuchPlayer?
  {
    var keys := Keys(d);
    if keys == [] {
      return EmptyChoice;
    }
    assert keys[0] in keys;
    var coor :| coor in keys;
    var dests := Lookup(d, coor);
    if dests == [] {
      return EmptyChoice;
    }
    assert dests[0] in dests;
    var move :| move in dests;
    r := Move(coor, move);
    ghost var i :| 0 <= i < |d| && d[i] == (coor, dests);
  }

  /** The loop of RandomBotPlayer that lists the keys with moves. */
  method ListNonEmptyKeys(moves: MoveDict) returns (l: seq<Coor>)
    ensures l == NonEmptyKeys(moves)
  {
    l := [];
    for i := 0 to |moves|
      invariant l == NonEmptyKeys(moves[..i])
    {
      assert moves[..i + 1] == moves[..i] + [moves[i]];
      assert moves[..i + 1][..i] == moves[..i];
      if moves[i].1 != [] {
        KeysSnoc(NonEmpty(moves[..i]), moves[i]);
        l := l + [moves[i].0];
      }
    }
    assert moves[..|moves|] == moves;
  }

  /** RandomBotPlayer.pickMove: a key whose list is not empty, then a
      member of that list; with no move at all the first choice fails. */
  method RandomPick(moves: MoveDict) returns (r: Pick)
    requires UniqueKeys(moves)
    ensures r.Move? <==> exists e :: e in moves && e.1 != []
    ensures r.Move? ==> InDict(moves, r.start, r.end)
    ensures !r.NoChoice?
    ensures !r.NoSuchPlayer?
  {
    var l := ListNonEmptyKeys(moves);
    if l == [] {
      assert NonEmpty(moves) == [];
      return EmptyChoice;
    }
    assert l[0] in l;
    var coor :| coor in l;
    ghost var k :| 0 <= k < |NonEmpty(moves)| && Keys(NonEmpty(moves))[k] == coor;
    ghost var entry := NonEmpty(moves)[k];
    assert entry in moves;
    ghost var i :| 0 <= i < |moves| && moves[i] == entry;
    assert coor in Keys(moves) by {
      assert Keys(moves)[i] == coor;
    }
    var dests := Lookup(moves, coor);
    assert dests == entry.1;
    assert dests[0] in dests;
    var move :| move in dests;
    r := Move(coor, move);
  }

  /** GreedyRandomBotPlayer.pickMove: a random forward move if there is
      one, otherwise a random sideways move, otherwise the choice fails. */
  method GreedyRandomPick(moves: MoveDict) returns (r: Pick)
    requires UniqueKeys(moves)
    ensures HasHeading(moves, Forward) ==> r.Move? && InDict(moves, r.start, r.end) && Goes(Forward, r.start, r.end)
    ensures !HasHeading(moves, Forward) && HasHeading(moves, Sideways) ==>
              r.Move? && InDict(moves, r.start, r.end) && Goes(Sideways, r.start, r.end)
    ensures !HasHeading(moves, Forward) && !HasHeading(moves, Sideways) ==> r == EmptyChoice
    ensures r.Move? ==> InDict(moves, r.start, r.end)
    ensures !r.NoSuchPlayer?
  {
    var temp := CollectHeading(moves, Forward);
    CollectedKeys(moves, Forward);
    temp := DropEmpty(temp);
    BucketMembers(moves, Forward);
    if |temp| > 0 {
      r := ChooseFrom(temp);
    } else {
      temp := CollectHeading(moves, Sideways);
      CollectedKeys(moves, Sideways);
      temp := DropEmpty(temp);
      BucketMembers(moves, Sideways);
      r := ChooseFrom(temp);
      BucketNonEmpty(moves, Sideways);
    }
    BucketNonEmpty(moves, Forward);
  }

  /** A bucket is empty exactly when no move goes in its direction. */
  lemma BucketNonEmpty(moves: MoveDict, h: Heading)
    ensures Bucket(moves, h) != [] <==> HasHeading(moves, h)
  {
    BucketMembers(moves, h);
    var b := Bucket(moves, h);
    if b != [] {
      assert b[0].1 != [] by {
        assert b[0] in b;
      }
      assert InDict(b, b[0].0, b[0].1[0]);
    }
  }

  /** The running best of Greedy1BotPlayer over the pairs ps seen so far:
      unset, with the initial bounds -8 and 8, while every destination row
      seen is below -8; otherwise a seen pair with the highest destination
      row and, among those, the lowest start row. */
  ghost predicate Best1(ps: seq<(Coor, Coor)>, best: Option<(Coor, Coor)>, biggestDestY: int, smallestStartY: int) {
    (best.None? ==> biggestDestY == -8 && smallestStartY == 8 && forall p :: p in ps ==> p.1.q < -8) &&
    (best.Some? ==>
       best.value in ps && biggestDestY == best.value.1.q && biggestDestY >= -8 && smallestStartY == best.value.0.q &&
       forall p :: p in ps ==> p.1.q < biggestDestY || (p.1.q == biggestDestY && smallestStartY <= p.0.q))
  }

  /** The scan of Greedy1BotPlayer over the forward moves. Only a pair
      that ties the running best on both rows goes to a coin flip. */
  method Greedy1Scan(forward: MoveDict) returns (r: Pick)
    requires forall c, x :: InDict(forward, c, x) ==> Goes(Forward, c, x)
    ensures r.Move? || r == NoChoice
    ensures r == NoChoice <==> forall c, x :: InDict(forward, c, x) ==> x.q < -8
    ensures r.Move? ==> InDict(forward, r.start, r.end)
    ensures r.Move? ==> forall c, x :: InDict(forward, c, x) ==>
              x.q < r.end.q || (x.q == r.end.q && r.start.q <= c.q)
  {
    var biggestDestY := -8;
    var smallestStartY := 8;
    var best: Option<(Coor, Coor)> := None;
    ghost var ps: seq<(Coor, Coor)> := [];
    for i := 0 to |forward|
      invariant ps == Flatten(forward[..i])
      invariant Best1(ps, best, biggestDestY, smallestStartY)
    {
      var coor := forward[i].0;
      var dests := forward[i].1;
      ghost var seen := ps;
      for j := 0 to |dests|
        invariant ps == seen + Pairs(coor, dests[..j])
        invariant Best1(ps, best, biggestDestY, smallestStartY)
      {
        var dest := dests[j];
        assert InDict(forward, coor, dest);
        if dest.q > biggestDestY {
          best := Some((coor, dest));
          biggestDestY := dest.q;
          smallestStartY := coor.q;
        } else if dest.q == biggestDestY {
          var startY := coor.q;
          if startY < smallestStartY {
            best := Some((coor, dest));
            biggestDestY := dest.q;
            smallestStartY := coor.q;
          } else if startY == smallestStartY {
            var choice :| choice in [best.value, (coor, dest)];
            best := Some(choice);
            biggestDestY := choice.1.q;
            smallestStartY := choice.0.q;
          }
        }
        PairsSnoc(coor, dests, j);
        ps := ps + [(coor, dest)];
      }
      assert dests[..|dests|] == dests;
      assert forward[..i + 1] == forward[..i] + [forward[i]];
      FlattenSnoc(forward[..i], forward[i]);
    }
    assert forward[..|forward|] == forward;
    Best1Final(forward, best, biggestDestY, smallestStartY);
    if best.Some? {
      r := Move(best.value.0, best.value.1);
    } else {
      r := NoChoice;
    }
  }

  /** What the running best of Greedy1BotPlayer means once every pair of
      the dictionary has been seen. */
  lemma Best1Final(forward: MoveDict, best: Option<(Coor, Coor)>, biggestDestY: int, smallestStartY: int)
    requires Best1(Flatten(forward), best, biggestDestY, smallestStartY)
    ensures best.None? <==> forall c, x :: InDict(forward, c, x) ==> x.q < -8
    ensures best.Some? ==> InDict(forward, best.value.0, best.value.1)
    ensures best.Some? ==> forall c, x :: InDict(forward, c, x) ==>
              x.q < best.value.1.q || (x.q == best.value.1.q && best.value.0.q <= c.q)
  {
    var ps := Flatten(forward);
    FlattenMembers(forward);
    forall c, x | InDict(forward, c, x)
      ensures best.None? ==> x.q < -8
      ensures best.Some? ==> x.q < best.value.1.q || (x.q == best.value.1.q && best.value.0.q <= c.q)
    {
      assert (c, x) in ps;
    }
    if best.Some? {
      assert best.value == (best.value.0, best.value.1);
    }
  }

  /** The advance of a move: how many rows it climbs. */
  function Advance(m: (Coor, Coor)): int {
    m.1.q - m.0.q
  }

  /** Move a is strictly preferred to move b by Greedy2BotPlayer: it
      climbs further, or as far and ends on a lower row. */
  predicate Beats(a: (Coor, Coor), b: (Coor, Coor)) {
    Advance(a) > Advance(b) || (Advance(a) == Advance(b) && a.1.q < b.1.q)
  }

  /** The running best of Greedy2BotPlayer over the pairs ps seen so far:
      the pair at position k of ps, beaten by none of ps, and beating every
      pair before it. */
  ghost predicate Best2(ps: seq<(Coor, Coor)>, k: int) {
    0 <= k < |ps| &&
    (forall p :: p in ps ==> !Beats(p, ps[k])) &&
    (forall p :: p in ps[..k] ==> Beats(ps[k], p))
  }

  /** A pair that does not beat the running best leaves it in place. */
  lemma Best2Keep(ps: seq<(Coor, Coor)>, k: int, p: (Coor, Coor))
    requires Best2(ps, k) && !Beats(p, ps[k])
    ensures Best2(ps + [p], k) && (ps + [p])[k] == ps[k]
  {
    assert (ps + [p])[..k] == ps[..k];
  }

  /** The first pair, or a pair that beats the running best, becomes the
      new running best. */
  lemma Best2Take(ps: seq<(Coor, Coor)>, k: int, p: (Coor, Coor))
    requires ps == [] || (Best2(ps, k) && Beats(p, ps[k]))
    ensures Best2(ps + [p], |ps|) && (ps + [p])[|ps|] == p
  {
    assert (ps + [p])[..|ps|] == ps;
  }

  /** The state of Greedy2BotPlayer's scan after the pairs ps: no best
      while ps is empty, otherwise the best at position k of ps, with
      `max_dist` its advance. */
  ghost predicate Scan2(ps: seq<(Coor, Coor)>, best: Option<(Coor, Coor)>, k: int, maxDist: int) {
    (best.Some? <==> ps != []) &&
    (best.Some? ==> Best2(ps, k) && ps[k] == best.value && maxDist == Advance(best.value))
  }

  /** The scan of Greedy2BotPlayer over the forward moves: the first pair
      seen is taken; later pairs replace the best only when they beat it. */
  method Greedy2Scan(forward: MoveDict) returns (r: Pick)
    ensures r.Move? <==> Flatten(forward) != []
    ensures !r.Move? ==> r == NoChoice
    ensures r.Move? ==> exists k :: Best2(Flatten(forward), k) && Flatten(forward)[k] == (r.start, r.end)
  {
    var best: Option<(Coor, Coor)> := None;
    var maxDist := 0;
    ghost var bestIdx := 0;
    ghost var ps: seq<(Coor, Coor)> := [];
    for i := 0 to |forward|
      invariant ps == Flatten(forward[..i])
      invariant Scan2(ps, best, bestIdx, maxDist)
    {
      ghost var seen := ps;
      best, maxDist, ps, bestIdx := Greedy2Row(forward[i].0, forward[i].1, best, maxDist, ps, bestIdx);
      assert forward[..i + 1] == forward[..i] + [forward[i]];
      FlattenSnoc(forward[..i], forward[i]);
    }
    assert forward[..|forward|] == forward;
    if best.Some? {
      r := Move(best.value.0, best.value.1);
    } else {
      r := NoChoice;
    }
  }

  /** The inner loop of Greedy2BotPlayer's scan, over the destinations of
      the start coor. */
  method Greedy2Row(coor: Coor, dests: seq<Coor>, best0: Option<(Coor, Coor)>, maxDist0: int,
                    ghost ps0: seq<(Coor, Coor)>, ghost k0: int)
    returns (best: Option<(Coor, Coor)>, maxDist: int, ghost ps: seq<(Coor, Coor)>, ghost bestIdx: int)
    requires Scan2(ps0, best0, k0, maxDist0)
    ensures ps == ps0 + Pairs(coor, dests) && Scan2(ps, best, bestIdx, maxDist)
  {
    best, maxDist, ps, bestIdx := best0, maxDist0, ps0, k0;
    for j := 0 to |dests|
      invariant ps == ps0 + Pairs(coor, dests[..j])
      invariant Scan2(ps, best, bestIdx, maxDist)
    {
      var dest := dests[j];
      if best.None? {
        Best2Take(ps, bestIdx, (coor, dest));
        best := Some((coor, dest));
        maxDist := dest.q - coor.q;
        bestIdx := |ps|;
      } else {
        var dist := dest.q - coor.q;
        if dist > maxDist {
          Best2Take(ps, bestIdx, (coor, dest));
          maxDist := dist;
          best := Some((coor, dest));
          bestIdx := |ps|;
        } else if dist == maxDist && dest.q < best.value.1.q {
          Best2Take(ps, bestIdx, (coor, dest));
          maxDist := dist;
          best := Some((coor, dest));
          bestIdx := |ps|;
        } else {
          Best2Keep(ps, bestIdx, (coor, dest));
        }
      }
      PairsSnoc(coor, dests, j);
      ps := ps + [(coor, dest)];
    }
    assert dests[..|dests|] == dests;
  }

  /** Greedy1BotPlayer.pickMove: with no forward move, a random sideways
      move (the choice fails if there is none); otherwise the forward move
      reaching the highest row, from the lowest start row among those. */
  method Greedy1Pick(moves: MoveDict) returns (r: Pick)
    requires UniqueKeys(moves)
    ensures !HasHeading(moves, Forward) && HasHeading(moves, Sideways) ==>
              r.Move? && InDict(moves, r.start, r.end) && Goes(Sideways, r.start, r.end)
    ensures !HasHeading(moves, Forward) && !HasHeading(moves, Sideways) ==> r == EmptyChoice
    ensures HasHeading(moves, Forward) ==>
              (r == NoChoice <==> forall c, x :: InDict(moves, c, x) && Goes(Forward, c, x) ==> x.q < -8)
    ensures HasHeading(moves, Forward) ==> r.Move? || r == NoChoice
    ensures HasHeading(moves, Forward) && r.Move? ==>
              InDict(moves, r.start, r.end) && Goes(Forward, r.start, r.end) &&
              forall c, x :: InDict(moves, c, x) && Goes(Forward, c, x) ==>
                x.q < r.end.q || (x.q == r.end.q && r.start.q <= c.q)
    ensures r.Move? ==> InDict(moves, r.start, r.end)
    ensures !r.NoSuchPlayer?
  {
    var forward, sideways := CollectBoth(moves);
    CollectedKeys(moves, Forward);
    CollectedKeys(moves, Sideways);
    forward := DropEmpty(forward);
    sideways := DropEmpty(sideways);
    BucketMembers(moves, Forward);
    BucketMembers(moves, Sideways);
    BucketNonEmpty(moves, Forward);
    BucketNonEmpty(moves, Sideways);
    if |forward| == 0 {
      r := ChooseFrom(sideways);
    } else {
      r := Greedy1Scan(forward);
    }
  }

  /** Greedy2BotPlayer.pickMove: with no forward move, a random sideways
      move (the choice fails if there is none); otherwise the forward move
      that climbs furthest, ending on the lowest row among those, and the
      first such in the dictionary's iteration order. */
  method Greedy2Pick(moves: MoveDict) returns (r: Pick)
    requires UniqueKeys(moves)
    ensures !HasHeading(moves, Forward) && HasHeading(moves, Sideways) ==>
              r.Move? && InDict(moves, r.start, r.end) && Goes(Sideways, r.start, r.end)
    ensures !HasHeading(moves, Forward) && !HasHeading(moves, Sideways) ==> r == EmptyChoice
    ensures HasHeading(moves, Forward) ==> r.Move? && Advance((r.start, r.end)) > 0
    ensures HasHeading(moves, Forward) ==>
              exists k :: Best2(FilterPairs(Flatten(moves), Forward), k) &&
                FilterPairs(Flatten(moves), Forward)[k] == (r.start, r.end)
    ensures r.Move? ==> InDict(moves, r.start, r.end)
    ensures !r.NoSuchPlayer?
  {
    var forward, sideways := CollectBoth(moves);
    CollectedKeys(moves, Forward);
    CollectedKeys(moves, Sideways);
    forward := DropEmpty(forward);
    sideways := DropEmpty(sideways);
    BucketMembers(moves, Sideways);
    BucketNonEmpty(moves, Forward);
    BucketNonEmpty(moves, Sideways);
    if |forward| == 0 {
      r := ChooseFrom(sideways);
      return;
    }
    r := Greedy2Scan(forward);
    BucketOrder(moves, Forward);
    BucketPairs(moves, Forward);
    if r.Move? {
      ghost var ps := Flatten(forward);
      ghost var k :| Best2(ps, k) && ps[k] == (r.start, r.end);
      assert ps[k] in ps;
    }
  }

  /** Every pair of a flattened bucket is a move of the dictionary in the
      bucket's direction, and the flattened bucket is empty only when no
      move goes that way. */
  lemma BucketPairs(moves: MoveDict, h: Heading)
    ensures forall p :: p in Flatten(Bucket(moves, h)) ==> InDict(moves, p.0, p.1) && Goes(h, p.0, p.1)
    ensures HasHeading(moves, h) ==> Flatten(Bucket(moves, h)) != []
  {
    var b := Bucket(moves, h);
    BucketMembers(moves, h);
    FlattenMembers(b);
    forall p | p in Flatten(b)
      ensures InDict(moves, p.0, p.1) && Goes(h, p.0, p.1)
    {
      assert (p.0, p.1) == p;
    }
    if HasHeading(moves, h) {
      var c, x :| InDict(moves, c, x) && Goes(h, c, x);
      assert (c, x) in Flatten(b);
    }
  }

  /** The rule of a bot of the given kind; whatever it picks is a move of
      the dictionary. */
  method BotPick(kind: Kind, moves: MoveDict) returns (pick: Pick)
    requires kind != Human && UniqueKeys(moves)
    ensures pick.Move? ==> InDict(moves, pick.start, pick.end)
    ensures !pick.NoSuchPlayer?
  {
    match kind {
      case RandomBot => pick := RandomPick(moves);
      case GreedyRandomBot => pick := GreedyRandomPick(moves);
      case Greedy1Bot => pick := Greedy1Pick(moves);
      case Greedy2Bot => pick := Greedy2Pick(moves);
    }
  }

  /** A move stored in a dictionary of allMovesDict(n) is a valid move of
      one of player n's pieces, both seen in n's subjective coordinates. */
  lemma PickedFromPiece(g: Game, moves: MoveDict, n: int, geo: Geometry, c: Coor, y: Coor)
    requires n in g.pieces && g.MovesOf(moves, n, geo) && InDict(moves, c, y)
    ensures exists x, m :: x in g.pieces[n] && m in ValidMoves(g.board, x.coor, n, geo) &&
              c == geo.objToSubj(x.coor, n) && y == geo.objToSubj(m, n)
  {
    var i :| 0 <= i < |moves| && moves[i].0 == c && y in moves[i].1;
    assert moves[i] in moves;
    var x :| x in g.pieces[n] && ValidMoves(g.board, x.coor, n, geo) != [] && moves[i] == g.EntryOf(x, n, geo);
    var ms := ValidMoves(g.board, x.coor, n, geo);
    var j :| 0 <= j < |ToSubj(geo, ms, n)| && ToSubj(geo, ms, n)[j] == y;
    assert ms[j] in ms;
  }

  /** Which kind of player this is: the subclass of Player. */
  datatype Kind = Human | RandomBot | GreedyRandomBot | Greedy1Bot | Greedy2Bot

  /** A player: its number, set by the game loop, and whether it has won. */
  class Player {
    const kind: Kind
    var playerNum: int
    var hasWon: bool

    constructor (kind: Kind)
      ensures this.kind == kind && playerNum == 0 && !hasWon
    {
      this.kind := kind;
      playerNum := 0;
      hasWon := false;
    }

    method SetPlayerNum(num: int)
      modifies this
      ensures playerNum == num && hasWon == old(hasWon)
    {
      playerNum := num;
    }

    /** pickMove(g) of a bot: the rule of its kind over allMovesDict of its
        player, with the chosen start and destination turned back into
        objective coordinates. A chosen move is always a valid move of one
        of the player's pieces, seen through the two rotations. */
    method PickMove(g: Game, geo: Geometry) returns (r: Pick)
      requires kind != Human
      ensures r.NoSuchPlayer? <==> playerNum !in g.pieces
      ensures r.NoSuchPlayer? ==> r.num == playerNum
      ensures r.Move? ==>
                playerNum in g.pieces &&
                exists x, m :: x in g.pieces[playerNum] && m in ValidMoves(g.board, x.coor, playerNum, geo) &&
                  r.start == geo.subjToObj(geo.objToSubj(x.coor, playerNum), playerNum) &&
                  r.end == geo.subjToObj(geo.objToSubj(m, playerNum), playerNum)
    {
      var found := g.AllMovesDict(playerNum, geo);
      if found.PlayerKeyError? {
        return NoSuchPlayer(playerNum);
      }
      var moves := found.dict;
      var pick := BotPick(kind, moves);
      if pick.Move? {
        PickedFromPiece(g, moves, playerNum, geo, pick.start, pick.end);
        r := Move(geo.subjToObj(pick.start, playerNum), geo.subjToObj(pick.end, playerNum));
      } else {
        r := pick;
      }
    }
  }
}
