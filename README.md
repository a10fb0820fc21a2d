# Chinese checkers: board engine, bots and turn loop

This project models the game logic of a pygame Chinese-checkers program and proves properties of the model in Dafny. Three parts are modelled:

- **The engine** (`Game`). It covers:
  - the star-shaped board that `createBoard` builds from seven fill loops;
  - the per-player piece index;
  - move generation (`getValidMoves`): steps, jumps, the jump-chain helper and the zone filter;
  - win detection (`checkWin`);
  - the two subjective board projections;
  - the dictionary of all moves (`allMovesDict`);
  - the guarded `movePiece`.
- **The players.** The `Player` base class, plus the move choice (`pickMove`) of the four bots: random, greedy-random, greedy-by-height and greedy-by-distance.
- **The game loops.** They cover:
  - `exactly_one_is_human`;
  - how the player list is cleaned up and numbered;
  - turn rotation and the removal of a winner when three play;
  - the replay record that the loops write and the replay viewer reads.

The modules follow the program's structure:

| file | module | models |
|---|---|---|
| `hex.dfy` | `Hex` | coordinates, `Piece`, board cells, and the geometry parameters (directions, zones, rotations, jump-chain helper) |
| `sequtil.dfy` | `SeqUtil` | `list.remove`, filtering, `list(set(...))`, dictionaries as ordered entry lists |
| `layout.dfy` | `StartCells`, `Layout` | the regions the fill loops of `createBoard` cover |
| `moves.dfy` | `Moves` | the specification of `getValidMoves` |
| `engine.dfy` | `Engine` | the `Game` class, `createBoard`, `movePiece`, `allMovesDict` |
| `views.dfy` | `Views` | `checkWin`, `getBoardState`, `getBoolBoardState` |
| `players.dfy` | `Players` | `Player` and the four bots |
| `replay.dfy` | `Replay` | `str` of the record lines and reading them back |
| `loops.dfy` | `Loops` | `exactly_one_is_human`, player setup, the turn loop |

`Game`, `Piece` and `Player` are classes, because the source updates their fields in place:
- the board and piece index;
- a piece's cell;
- a player's number and `has_won` flag.

A board is a map from coordinates to `Empty` or `Holds(piece)`. A Python dictionary that is iterated in order becomes a sequence of entries. Two iteration orders are parameters. The order of each player's piece set is not fixed by the source, because a Python set has no order. The order of the board keys is fixed: a dict keeps insertion order, so it is the order in which the seven fill loops of `createBoard` first insert each cell, and `movePiece` only reassigns existing keys. The model does not compute that order. It leaves it as a parameter, and `Views.BoardStateExact` shows the result does not depend on it when the rotation is one-to-one.

Some behaviours of the source are written out exactly as the code does them:

- **Player count.** `Game(playerCount)` stores 3 for an invalid count but builds the board from the count as given.
  - With a count other than 2 or 3 the third triangle is filled with pieces.
  - Those pieces are not indexed, so `Valid` holds only for 2 and 3.
- **movePiece errors.** `movePiece` reads `board[start]` first and `board[end]` only when start holds a piece, so the model reports:
  - a missing start key as `KeyError`;
  - an empty start as `AssertionError`, before `end` is looked up.
- **Greedy1 with no forward move.** Greedy1 keeps its running best unset while every forward destination stays below row -8, and returns the empty choice in that case.
- **Greedy2's first move.** Greedy2 takes the first forward move it sees, because of the `()` test, and replaces it only with a strictly better one.
- **Turn rotation after a win.** When the first of three players wins, the loop removes the winner. It then advances the index computed for the old list into the shortened list. If the winner sat at position 0 or 1, the player who sat right after the winner is skipped once (`NextAfterWinner`).
- **Turn loop with other player counts.** With any player count other than 2 or 3, nobody is ever recorded as a winner and the loop never ends (`RoundRobin`).
- **Training replay records.** The training loop records moves as `str(start) + ' ' + str(end)`. The replay viewer splits lines at `"to"`, so it would reject every line the training loop writes (`SpaceLineRejected`). The training loop never saves its record, because it leaves its loop with `break` before any write. Lines written by the gameplay loop read back exactly (`LineRoundTrip`).

## Model

All source paths are under `pygame-chinese-checkers/game_logic/`.

| member | source | states |
|---|---|---|
| Engine.Game.constructor | pygame-chinese-checkers/game_logic/game.py:7-11 | playerCount falls back to 3; the board has the initial shape for the count given; pieces[1], pieces[2] are the pieces in their start triangles, pieces[3] those of triangle 3 only for count 3; the game is consistent for counts 2 and 3 |
| Engine.CreateBoard | pygame-chinese-checkers/game_logic/game.py:18-63 | the board has exactly the star's cells, pieces exactly on the initially occupied cells with the owner of their triangle, each piece knowing its cell; the added sets are the pieces of each start triangle |
| Layout.FillIfAbsent | pygame-chinese-checkers/game_logic/game.py:21-25 | an end-zone loop adds the missing cells of its region as empty and leaves every existing cell unchanged |
| Engine.FillRegion | pygame-chinese-checkers/game_logic/game.py:27-32 | a start-zone loop fills every cell of its triangle with a fresh piece of its owner (or empty for player 3 with two players) and returns exactly the pieces it placed |
| Engine.FillRow | pygame-chinese-checkers/game_logic/game.py:28-32 | one row of a fill loop: the cells of the row are added and set, other cells unchanged, the added pieces are the ones on the row |
| Engine.CreatedShape | pygame-chinese-checkers/game_logic/game.py:18-63 | the seven fills in order yield the initial shape, and the later fills leave each start triangle's pieces where they were placed |
| Engine.CreatedKeys | pygame-chinese-checkers/game_logic/game.py:18-63 | the board's keys are exactly the cells of the star, whatever the count |
| Engine.CreatedStarts | pygame-chinese-checkers/game_logic/game.py:47-62 | no later loop overwrites a cell of a start triangle |
| Engine.CreatedCells | pygame-chinese-checkers/game_logic/game.py:18-63 | a cell holds a piece exactly when it is initially occupied for the count |
| Engine.CreatedCell | pygame-chinese-checkers/game_logic/game.py:18-63 | the same fact for one cell |
| Engine.CreatedOwners | pygame-chinese-checkers/game_logic/game.py:27-58 | every piece in start triangle n belongs to player n |
| Engine.Indexed | pygame-chinese-checkers/game_logic/game.py:10-11 | the consistency of `pieces` with the board: keys 1, 2 and 3, every piece on the board owned by one of them, and `pieces[n]` exactly the pieces of n on the board |
| Engine.CreatedIsIndexed | pygame-chinese-checkers/game_logic/game.py:10-11 | for counts 2 and 3 the index built by createBoard holds exactly each player's pieces on the board |
| Engine.InitialCounts | pygame-chinese-checkers/game_logic/game.py:27-58 | each start triangle holds 15 pieces, except triangle 3 with two players, which holds none |
| Engine.FullCellsCount | pygame-chinese-checkers/game_logic/game.py:18-63 | on a consistent board, a set of occupied cells holds as many distinct pieces as it has cells |
| Engine.AddedArePiecesIn | pygame-chinese-checkers/game_logic/game.py:31-32 | the pieces added by a fill are exactly the pieces standing in its region |
| Engine.InjectiveImageSize | pygame-chinese-checkers/game_logic/game.py:84-88 | distinct pieces at distinct cells are as many as their cells |
| Layout.StartTrianglesApart | pygame-chinese-checkers/game_logic/game.py:27-62 | the three start triangles and the neutral hexagon do not overlap |
| Layout.StartTriangleSize | pygame-chinese-checkers/game_logic/game.py:27-58 | each start triangle has 15 cells |
| Layout.TriangleOneListed | pygame-chinese-checkers/game_logic/game.py:27-29 | triangle 1 is exactly the 15 listed cells |
| Layout.TriangleTwoListed | pygame-chinese-checkers/game_logic/game.py:40-42 | triangle 2 is exactly the 15 listed cells |
| Layout.TriangleThreeListed | pygame-chinese-checkers/game_logic/game.py:53-55 | triangle 3 is exactly the 15 listed cells |
| Moves.ScanStep | pygame-chinese-checkers/game_logic/game.py:69-76 | one direction appends the step when the neighbour is empty; when the neighbour can be jumped it appends the landing square followed by what the jump-chain helper returns for the list so far; otherwise nothing; earlier moves are kept |
| Moves.Scan | pygame-chinese-checkers/game_logic/game.py:67-76 | the direction loop's list holds every plain step and every single-jump landing in any of the directions |
| Moves.ScanSound | pygame-chinese-checkers/game_logic/game.py:67-76 | everything in the scan is a step, a single jump, or something the jump-chain helper added after a jump |
| Moves.ScanPrefix | pygame-chinese-checkers/game_logic/game.py:68-76 | the scan over the first k directions is a prefix of the whole scan |
| Moves.ValidMoves | pygame-chinese-checkers/game_logic/game.py:65-82 | the result has no duplicates, and x is in it exactly when the scan found x and x lies in the player's allowed zone |
| Moves.ValidMovesSpec | pygame-chinese-checkers/game_logic/game.py:65-82 | the result has no duplicates, lies in the allowed zone, and contains every allowed step and single jump |
| Engine.Game.GetValidMoves | pygame-chinese-checkers/game_logic/game.py:65-82 | the method returns the specified valid moves |
| Engine.Game.ScanMoves | pygame-chinese-checkers/game_logic/game.py:67-76 | the direction loop computes the scan |
| Engine.DropOutside | pygame-chinese-checkers/game_logic/game.py:77-81 | the filter loop removes exactly the rejected moves, keeping the rest in order |
| Engine.RemoveAll | pygame-chinese-checkers/game_logic/game.py:80-81 | `while i in moves: moves.remove(i)` removes every occurrence of i and nothing else |
| SeqUtil.RemoveFirstWithout | pygame-chinese-checkers/game_logic/game.py:80-81 | removing one occurrence keeps the list with all occurrences removed unchanged, which is why the loop in RemoveAll makes progress |
| SeqUtil.WithoutConcat | pygame-chinese-checkers/game_logic/game.py:77-81 | filtering distributes over concatenation |
| SeqUtil.WithoutTwice | pygame-chinese-checkers/game_logic/game.py:77-81 | filtering twice is filtering by the union |
| SeqUtil.WithoutNothing | pygame-chinese-checkers/game_logic/game.py:79-81 | filtering out elements that are absent changes nothing |
| SeqUtil.Dedup | pygame-chinese-checkers/game_logic/game.py:82 | `list(set(moves))` has no duplicates and the same elements as moves |
| SeqUtil.Without | pygame-chinese-checkers/game_logic/game.py:77-81 | the filtered list holds exactly the elements of s not in X |
| SeqUtil.IndexOf | pygame-chinese-checkers/game_logic/loops.py:136 | the position found holds x and is its first occurrence |
| SeqUtil.RemoveFirstDrops | pygame-chinese-checkers/game_logic/loops.py:136 | in a list without duplicates, `remove(x)` leaves no x and adds nothing |
| Views.CheckWin | pygame-chinese-checkers/game_logic/game.py:84-88 | checkWin(n) holds exactly when every end-zone cell holds a piece of n |
| Views.WinMeansAllHome | pygame-chinese-checkers/game_logic/game.py:84-88 | on a consistent board where n owns as many pieces as the end zone has cells, checkWin(n) holds exactly when all of n's pieces stand in the end zone |
| Views.AllHomeFillsZone | pygame-chinese-checkers/game_logic/game.py:84-88 | if all of n's pieces are in the end zone and they are as many as its cells, every end-zone cell holds a piece of n |
| Views.SubsetSameSize | pygame-chinese-checkers/game_logic/game.py:84-88 | a subset as large as its finite superset is the superset |
| Views.NoDupCard | pygame-chinese-checkers/game_logic/game.py:85 | a duplicate-free zone list has as many cells as its set |
| Views.Project | pygame-chinese-checkers/game_logic/game.py:92-94 | every rotated cell of the iteration order is a key, and the last cell visited gives its key's value, overwriting any earlier one |
| Views.BoardState | pygame-chinese-checkers/game_logic/game.py:90-95 | getBoardState has a key for the subjective coordinate of every board cell |
| Views.BoolBoardState | pygame-chinese-checkers/game_logic/game.py:97-102 | getBoolBoardState has a key for the subjective coordinate of every board cell |
| Views.ProjectSpec | pygame-chinese-checkers/game_logic/game.py:92-94 | the projected dictionary has a key for each rotated cell and no other, each value coming from a cell that rotates to its key |
| Views.BoardStateExact | pygame-chinese-checkers/game_logic/game.py:90-95 | with a one-to-one rotation, getBoardState has exactly one entry per cell: 0 when empty, the owner when occupied |
| Views.BoolStateAgrees | pygame-chinese-checkers/game_logic/game.py:90-102 | getBoolBoardState has the same keys as getBoardState and is True exactly where the integer state is nonzero |
| Engine.Game.AllMovesDict | pygame-chinese-checkers/game_logic/game.py:104-112 | a player number with no piece set raises KeyError; otherwise the dictionary has one entry per piece of n with valid moves, keyed by its subjective cell and holding its moves in subjective coordinates, and no other entry |
| Engine.Game.MovesDictExact | pygame-chinese-checkers/game_logic/game.py:104-112 | with a one-to-one rotation, each of n's pieces has an entry exactly when it has a valid move, and that entry's list is its rotated valid moves |
| SeqUtil.Put | pygame-chinese-checkers/game_logic/game.py:111 | assigning a new key appends the entry; assigning an existing key replaces its value in place |
| SeqUtil.PutSpec | pygame-chinese-checkers/game_logic/game.py:111 | a dictionary assignment keeps keys unique, stores the new pair, and keeps every entry with another key |
| SeqUtil.KeysPut | pygame-chinese-checkers/game_logic/game.py:111 | after an assignment the keys are the old keys plus the new one |
| Engine.MoveOutcome | pygame-chinese-checkers/game_logic/game.py:115 | movePiece goes ahead exactly when start holds a piece and end is an empty cell; a missing start raises KeyError; an empty start or an occupied end fails the assertion |
| Engine.Game.MovePiece | pygame-chinese-checkers/game_logic/game.py:114-118 | on success the piece learns its new cell, end holds it and start is empty; on an error nothing changes; the index and count never change; consistency is preserved |
| Engine.AfterMove | pygame-chinese-checkers/game_logic/game.py:116-118 | the board after a move keeps its keys, start is empty, end holds start's old content when the two differ, and every other cell is unchanged |
| Engine.MoveRoundTrip | pygame-chinese-checkers/game_logic/game.py:114-118 | moving back from end to start is allowed and restores the board |
| Engine.MoveKeepsIndex | pygame-chinese-checkers/game_logic/game.py:114-118 | a move keeps the piece index exact |
| Engine.Game.StepForwardAndBack | pygame-chinese-checkers/game_logic/game.py:114-118 | a move followed by the reverse move succeeds whenever the first does and gives back the same board and piece cells |
| Players.Player.constructor | pygame-chinese-checkers/game_logic/player.py:20-23 | a new player has number 0 and has not won |
| Players.Player.SetPlayerNum | pygame-chinese-checkers/game_logic/player.py:26-27 | sets the number and nothing else |
| Players.Player.PickMove | pygame-chinese-checkers/game_logic/player.py:37-175 | the pick ends in the KeyError of allMovesDict exactly when the player's number has no piece set; any move a bot returns moves one of the player's pieces to one of its valid moves, given back in objective coordinates |
| Players.BotPick | pygame-chinese-checkers/game_logic/player.py:37-175 | each bot's pick is a move of the dictionary it was given, and never a missing-player error |
| Players.PickedFromPiece | pygame-chinese-checkers/game_logic/player.py:39-45 | every entry of allMovesDict is a rotated piece cell and a rotated valid move of that piece |
| Players.RandomPick | pygame-chinese-checkers/game_logic/player.py:37-45 | the random bot returns a move exactly when some piece has a move, and that move is in the dictionary; otherwise random.choice fails on an empty list |
| Players.ListNonEmptyKeys | pygame-chinese-checkers/game_logic/player.py:40-42 | the loop lists the keys with non-empty move lists, in order |
| Players.ChooseFrom | pygame-chinese-checkers/game_logic/player.py:43-44 | two random choices give a move of the dictionary; an empty dictionary fails; a dictionary of non-empty lists always gives a move |
| Players.GreedyRandomPick | pygame-chinese-checkers/game_logic/player.py:51-78 | a forward move is picked when one exists; otherwise a sideways move when one exists; otherwise random.choice fails |
| Players.CollectHeading | pygame-chinese-checkers/game_logic/player.py:56-60 | the loop builds, for each key with moves, the list of its destinations in the given heading |
| Players.KeepLoop | pygame-chinese-checkers/game_logic/player.py:59-60 | the inner loop keeps exactly the destinations that go in the heading, in order |
| Players.DropEmpty | pygame-chinese-checkers/game_logic/player.py:61-62 | deleting the keys whose lists are empty leaves exactly the non-empty entries, in order |
| Players.CollectBoth | pygame-chinese-checkers/game_logic/player.py:94-99 | the shared loop of the greedy bots builds both the forward and the sideways dictionaries |
| Players.Keep | pygame-chinese-checkers/game_logic/player.py:59-60 | the kept destinations are those of the list that go in the heading |
| Players.NonEmpty | pygame-chinese-checkers/game_logic/player.py:61-62 | the kept entries are exactly those with a non-empty list |
| Players.Collected | pygame-chinese-checkers/game_logic/player.py:56-60 | the collecting loop keeps at most one entry per input entry, and every destination kept goes in the heading |
| Players.Bucket | pygame-chinese-checkers/game_logic/player.py:54-62 | after the deletion loop no list is empty, and every destination goes in the heading |
| Players.CollectedMembers | pygame-chinese-checkers/game_logic/player.py:56-60 | a pair is in the collected dictionary exactly when it is a move of the input that goes in the heading |
| Players.CollectedOrder | pygame-chinese-checkers/game_logic/player.py:56-60 | the collected pairs are the input's pairs in the heading, in iteration order |
| Players.CollectedKeys | pygame-chinese-checkers/game_logic/player.py:56-57 | the collected dictionary has unique keys, all of them keys of the input |
| Players.BucketMembers | pygame-chinese-checkers/game_logic/player.py:54-62 | after collecting and deleting empty lists, a pair is present exactly when it is a move in the heading, and no list is empty |
| Players.BucketOrder | pygame-chinese-checkers/game_logic/player.py:54-62 | the same dictionary lists its pairs in the input's iteration order |
| Players.BucketNonEmpty | pygame-chinese-checkers/game_logic/player.py:63 | `len(tempMoves) > 0` exactly when some move goes in the heading |
| Players.BucketPairs | pygame-chinese-checkers/game_logic/player.py:89-103 | every pair in a heading's dictionary is a move in that heading, and the dictionary is non-empty when such a move exists |
| Players.FlattenMembers | pygame-chinese-checkers/game_logic/player.py:112-114 | the nested loops visit exactly the pairs of the dictionary |
| Players.FlattenNonEmpty | pygame-chinese-checkers/game_logic/player.py:61-62 | dropping empty lists does not change the pairs visited |
| Players.FilterPairsConcat | pygame-chinese-checkers/game_logic/player.py:56-60 | filtering pairs distributes over concatenation |
| Players.PairsKeep | pygame-chinese-checkers/game_logic/player.py:59-60 | the pairs of the kept destinations are the filtered pairs |
| Players.Delete | pygame-chinese-checkers/game_logic/player.py:62 | `del d[k]` adds no entry, and removes exactly one when k is a key |
| Players.DeleteAfter | pygame-chinese-checkers/game_logic/player.py:62 | `del d[k]` removes exactly the entry with key k |
| Players.DropStep | pygame-chinese-checkers/game_logic/player.py:61-62 | one pass of the deletion loop advances the non-empty prefix by one entry |
| Players.FreshKey | pygame-chinese-checkers/game_logic/player.py:61-62 | a key not yet visited is absent from the cleaned prefix |
| Players.Lookup | pygame-chinese-checkers/game_logic/player.py:44 | `moves[coor]` is the list stored under coor |
| Players.Greedy1Scan | pygame-chinese-checkers/game_logic/player.py:106-128 | the scan returns no move exactly when every forward destination is below row -8; otherwise it returns a forward move with the highest destination row and, among those, the lowest start row |
| Players.Best1Final | pygame-chinese-checkers/game_logic/player.py:112-128 | what the running best means once every pair has been seen |
| Players.Greedy1Pick | pygame-chinese-checkers/game_logic/player.py:85-129 | with a forward move, Greedy1 returns a highest-reaching forward move (lowest start among ties), or the empty tuples when every forward destination is below row -8; with none, a sideways move, or random.choice fails |
| Players.Greedy2Scan | pygame-chinese-checkers/game_logic/player.py:163-174 | the scan returns a move exactly when there is a forward move, and then the first visited pair that no pair beats and that beats every pair before it |
| Players.Greedy2Row | pygame-chinese-checkers/game_logic/player.py:164-174 | scanning one key's destinations keeps the running best correct |
| Players.Best2Keep | pygame-chinese-checkers/game_logic/player.py:169-174 | a pair that does not beat the best leaves it in place |
| Players.Best2Take | pygame-chinese-checkers/game_logic/player.py:165-174 | the first pair, or a pair that beats the best, becomes the new best |
| Players.Greedy2Pick | pygame-chinese-checkers/game_logic/player.py:136-175 | with a forward move, Greedy2 returns a forward move of greatest climb (lowest destination among ties), the first such in iteration order; with none, a sideways move, or random.choice fails |
| Loops.ExactlyOneIsHuman | pygame-chinese-checkers/game_logic/loops.py:485-492 | the result is true exactly when one player, and only one, is human |
| Loops.Present | pygame-chinese-checkers/game_logic/loops.py:68 | the players left after dropping None are exactly the non-None entries |
| Loops.PresentConcat | pygame-chinese-checkers/game_logic/loops.py:68 | the present players of a concatenation are those of each part |
| Loops.RemoveNoneKeeps | pygame-chinese-checkers/game_logic/loops.py:68 | `players.remove(None)` keeps the present players in order |
| Loops.AllPresent | pygame-chinese-checkers/game_logic/loops.py:68 | once no None is left, the list is its present players |
| Loops.DropNones | pygame-chinese-checkers/game_logic/loops.py:68 | the loop leaves no None and keeps the players and their order |
| Loops.CopyAll | pygame-chinese-checkers/game_logic/loops.py:67 | each player is copied to a fresh, distinct object with the same kind, number and has_won |
| Loops.Normalise | pygame-chinese-checkers/game_logic/loops.py:67-72 | fewer than two players fails with IndexError; otherwise up to the first three present players, as fresh copies, numbered 1, 2, 3 by position with kind and has_won copied |
| Loops.NumberFirstSeats | pygame-chinese-checkers/game_logic/loops.py:70-72 | the first two, or three, players get numbers 1, 2, 3 by position |
| Loops.TrainingSetup | pygame-chinese-checkers/game_logic/loops.py:499-502 | the assertion holds exactly when there is no human, and then every player is numbered by its position (the number points back to its own seat); a failed assertion numbers nobody; has_won is untouched |
| Loops.NoHumans | pygame-chinese-checkers/game_logic/loops.py:499-500 | the assertion loop passes exactly when no player is human |
| Loops.NumberBySeat | pygame-chinese-checkers/game_logic/loops.py:501-502 | after the loop each player's number is the position of its last seat plus one |
| Loops.NextIndex | pygame-chinese-checkers/game_logic/loops.py:139-140 | the next index always lies in the list |
| Loops.NextIndexRound | pygame-chinese-checkers/game_logic/loops.py:139-140 | for an index inside the list, the update is `(i + 1) % len`; after a winner is removed the index can lie outside the shortened list, and NextAfterWinner states that case |
| Loops.TakeTurn | pygame-chinese-checkers/game_logic/loops.py:121-140 | one turn keeps the index in range and counts one more turn |
| Loops.RotateStep | pygame-chinese-checkers/game_logic/loops.py:139-140 | a turn without a recorded win only moves the index on |
| Loops.TwoSeatWin | pygame-chinese-checkers/game_logic/loops.py:121-132 | a win at a table of two records the mover and ends the loop |
| Loops.Play | pygame-chinese-checkers/game_logic/loops.py:84-140 | the loop keeps its index in range and plays at most one turn per script entry |
| Loops.OverStays | pygame-chinese-checkers/game_logic/loops.py:132 | once the loop has returned, further turns change nothing |
| Loops.PlayConcat | pygame-chinese-checkers/game_logic/loops.py:84-140 | playing two scripts in a row is playing their concatenation |
| Loops.PlayStep | pygame-chinese-checkers/game_logic/loops.py:84-140 | one more script entry plays one more turn unless the loop has returned |
| Loops.PlayStops | pygame-chinese-checkers/game_logic/loops.py:132 | once the loop has returned, or the script is used up, the rest of the script is ignored |
| Loops.SplitAtPlay | pygame-chinese-checkers/game_logic/loops.py:84-140 | a script can be played in two parts |
| Loops.Around | pygame-chinese-checkers/game_logic/loops.py:139-140 | k index updates stay in range |
| Loops.AroundIsMod | pygame-chinese-checkers/game_logic/loops.py:139-140 | k index updates from i land at `(i + k) % len` |
| Loops.ModNext | pygame-chinese-checkers/game_logic/loops.py:139-140 | `((a % n) + 1) % n == (a + 1) % n` |
| Loops.ModUnique | pygame-chinese-checkers/game_logic/loops.py:139-140 | a remainder is determined by the quotient equation |
| Loops.MulAtLeast | pygame-chinese-checkers/game_logic/loops.py:139-140 | a positive multiple of len is at least len |
| Loops.RotatePlay | pygame-chinese-checkers/game_logic/loops.py:84-140 | without a recorded win the players take turns round the table and nothing else changes |
| Loops.RoundRobin | pygame-chinese-checkers/game_logic/loops.py:84-140 | until the first win, turn k goes to seat k mod n; with n other than 2 and 3 this holds for ever, so nobody wins and the loop never returns |
| Loops.WinAtTwo | pygame-chinese-checkers/game_logic/loops.py:121-132 | at a table of two, the first win ends the loop with the mover at its then seat as the winner |
| Loops.TwoSeatPlay | pygame-chinese-checkers/game_logic/loops.py:121-140 | at a table of two the loop returns exactly when some turn wins; the winner is the mover of the first winning turn, after that many turns |
| Loops.TwoPlayerGame | pygame-chinese-checkers/game_logic/loops.py:121-132 | with two players the loop returns exactly when a turn wins; the winner is player k mod 2 for the first winning turn k, after k + 1 turns |
| Loops.ThreePlayerFirstWin | pygame-chinese-checkers/game_logic/loops.py:133-136 | with three players the first winner is the mover of the first winning turn k, seat k mod 3; it is removed from the list; until a second win nothing else is recorded |
| Loops.ThreePlayerEnd | pygame-chinese-checkers/game_logic/loops.py:121-140 | with three players the loop returns exactly when a later turn wins; the second winner is another of the three players, and the loop played through that turn |
| Loops.FirstWinTable | pygame-chinese-checkers/game_logic/loops.py:133-140 | the table after the first of three wins has two seats and goes on |
| Loops.FirstWinOfThree | pygame-chinese-checkers/game_logic/loops.py:133-140 | the first winning turn of three players leads to that table |
| Loops.AfterFirstWin | pygame-chinese-checkers/game_logic/loops.py:121-140 | a three-player game is its first win followed by a two-player game between the other two |
| Loops.NextAfterWinner | pygame-chinese-checkers/game_logic/loops.py:136-140 | after the winner at seat i is removed, the next mover is seat 0 when i is 2 and otherwise the player two seats after the winner, skipping the one right after it |
| Loops.LinesSnoc | pygame-chinese-checkers/game_logic/loops.py:119 | recording one more turn appends its line |
| Loops.Settle | pygame-chinese-checkers/game_logic/loops.py:121-140 | the end of a turn: a win flags has_won and records the mover's number, the table follows TakeTurn, and nobody's number changes |
| Loops.PlayOneTurn | pygame-chinese-checkers/game_logic/loops.py:119-140 | one pass of the loop records the move and settles the turn, keeping the loop's invariant |
| Loops.PlayTurns | pygame-chinese-checkers/game_logic/loops.py:76-140 | the loop's state is Play of the script; the record is the player count followed by one line per turn played; the winners are listed by number and flagged has_won; no number changes |
| Replay.NatString | pygame-chinese-checkers/game_logic/loops.py:76 | `str(n)` is a non-empty string of digits |
| Replay.Digit | pygame-chinese-checkers/game_logic/loops.py:76 | a digit value gives a digit character |
| Replay.FindTo | pygame-chinese-checkers/game_logic/loops.py:159 | a found position holds "to" and no earlier position does; when nothing is found, no position holds "to" |
| Replay.SplitTo | pygame-chinese-checkers/game_logic/loops.py:159 | `split("to")` gives at least one part, and joining the parts with "to" gives the line back |
| Replay.ParseNat | pygame-chinese-checkers/game_logic/loops.py:166 | an accepted natural number is a non-empty string of digits |
| Replay.ParseInt | pygame-chinese-checkers/game_logic/loops.py:166 | an accepted int holds only digits and minus signs |
| Replay.ParseCoor | pygame-chinese-checkers/game_logic/loops.py:166 | an accepted coordinate text holds only brackets, commas, spaces, minus signs and digits, so never a 't' |
| Replay.ParseMoveLine | pygame-chinese-checkers/game_logic/loops.py:159-166 | an accepted line is two texts joined by "to" that read back as the start and the end |
| Replay.NatRoundTrip | pygame-chinese-checkers/game_logic/loops.py:153-157 | reading back `str(n)` gives n |
| Replay.IntRoundTrip | pygame-chinese-checkers/game_logic/loops.py:166 | reading back `str(i)` gives i, for negative i too |
| Replay.NegRoundTrip | pygame-chinese-checkers/game_logic/loops.py:166 | reading back `str(i)` gives i for negative i |
| Replay.IntChars | pygame-chinese-checkers/game_logic/loops.py:119 | `str(i)` holds only digits and a minus sign |
| Replay.IndexOfAfter | pygame-chinese-checkers/game_logic/loops.py:166 | the first comma of `a + "," + b` is after a when a has none |
| Replay.CoorRoundTrip | pygame-chinese-checkers/game_logic/loops.py:166 | reading back `str((p, q))` gives (p, q) |
| Replay.CoorNoT | pygame-chinese-checkers/game_logic/loops.py:159 | `str((p, q))` holds no 't', so it can't contain "to" |
| Replay.FindToAfter | pygame-chinese-checkers/game_logic/loops.py:159 | the first "to" of `a + "to" + b` is right after a when a has no 't' |
| Replay.FindToNone | pygame-chinese-checkers/game_logic/loops.py:159 | a string with no 't' has no "to" |
| Replay.LineRoundTrip | pygame-chinese-checkers/game_logic/loops.py:119-166 | a gameplay record line splits into exactly `str(start)` and `str(end)`, and the replay viewer reads back the move recorded |
| Replay.SpaceLineRejected | pygame-chinese-checkers/game_logic/loops.py:508 | a training record line does not split at "to", so the replay viewer rejects it |

## Left out

- Drawing, the window, events, buttons, the menu and replay playback (`drawBoard`, `HumanPlayer.pickMove`, most of `gameplayLoop` and `replayLoop`, `Game.__init__`'s pixel sizes). These are pygame I/O.
- `HumanPlayer.pickMove` is not modelled. It waits for mouse clicks.
- Content not in the modelled files is passed in as a `Geometry` parameter and not modelled further:
  - the literal tables `DIRECTIONS`, `START_COOR`, `END_COOR` and `NEUTRAL_COOR`;
  - the helper functions `checkJump`, `obj_to_subj_coor` and `subj_to_obj_coor`.

  A statement about the rotations assumes (`Injective`) that they are one-to-one; a statement about the end zone assumes that it is a duplicate-free list of board cells.
- `PlayerMeta`, the registry of player classes, is not modelled. It only collects subclasses.
- The custom bot template is not part of this model.
- Randomness: `random.choice` picks some element (`:|`). Which element it picks, and its distribution, is not modelled.
- Iteration order: Python gives no order for sets, so the order over `self.pieces[n]` is a parameter. The board's key order, which `createBoard`'s insertion order fixes, is a parameter too (`order` in `Views`); the model does not derive it from the fill loops. The same goes for `list(set(moves))`: `Dedup` keeps the last occurrence of each element, and the model states only the elements and that they are distinct.
- Loops.PlayTurns: turns come from a script. Each entry gives a move and checkWin's answer. The script stands for the calls to `pickMove`, `movePiece` and `checkWin`, which the loop makes but the model does not connect. The loop also stops when the script runs out, whereas the source loops until a return.
- Loops.PlayTurns: requires at least one player. The gameplay loop always has two or more after normalisation. The training loop accepts an empty list: it records `"0"`, numbers nobody and then raises IndexError at `players[playingPlayerIndex]`. That IndexError is not modelled.
- Loops.PlayTurns: a turn whose move raises is not modelled. Neither is the back button that returns `([], [])`.
- Loops.PlayTurns: `humanPlayerNum` and `highlight` are not modelled. They only choose how the board is drawn.
- Loops.PlayTurns: the training loop is modelled as the same loop with separator " ". Its `print`s are left out. So is its `recordReplay=False` case, which keeps the record empty.
- Loops.Normalise: each player is copied on its own. `copy.deepcopy` copies the whole list at once, so a player object listed twice comes out as one shared copy. In the model the copies are distinct.
- Loops.Normalise: None entries are dropped after the copy is taken. This gives the same list.
- Loops.Normalise: with one player the source sets `players[0]`'s number before raising IndexError. Nothing can observe this, because the exception ends the loop.
- Loops.TrainingSetup: a failed assertion is reported as `false`. In the source, building the assertion's message raises TypeError, because `%` binds before `+ 1` and a string plus an int fails; the model does not tell this error from the AssertionError.
- Moves.ScanStep: the jump-chain helper `checkJump` appends to `moves` in place. The model (`Hex.JumpChain`) takes the list and the board and returns what the helper appends, so it assumes the helper never removes or reorders earlier entries and never changes the board. `Moves.Scan`, `Moves.ScanPrefix` and `Moves.ValidMovesSpec` rely on this.
- Engine.Game.GetValidMoves: the zone tables are total functions of the player number in `Geometry`, so the KeyError that `START_COOR[n]` or `END_COOR[n]` raises for a number outside 1 to 3 is not modelled. The same holds for `Views.CheckWin`. Through allMovesDict such a number already raises at `pieces[n]`, which is modelled.
- Replay: reading a record back stands for `eval`, but only on strings of the form `str` writes. `f.read()`, the line split and the player-count check are file handling and are not modelled.
- `ALL_COOR` and other constants defined outside the modelled files are not modelled.
