# Tetris-Lite game core in Dafny

This project models the game logic of Tetris-Lite, a block-placement puzzle for one player or several networked players. It covers these parts:

- **The board** (`Board.Grid`, from `Grid.java`): a `cols x rows` matrix of cell values, where 0 means empty, and a colour counter. Pieces are checked with `canPlayPiece` and painted with `playPiece`.
- **The turn engine** (`Engine.Game`, from `Game.java`): score, level, the level threshold `prevScore`, lives, the multiplier, the keyboard cursor, and the current and following pieces.
  - `afterPiece` scores every full row and then every full column.
  - The per-turn countdown is a `Clock` value. It is either `Idle` or `Armed(delay)`, and an explicit `Timeout` step stands for the timer task firing.
- **The networked game** (`Multiplayer.MultiplayerGame`, from `MultiplayerGame.java`).
  - Pieces arrive as `PIECE <n>` messages. A one-way `isCurrent` flag routes the first one to the current slot and every later one to the next slot.
  - The game reports to the server with `PIECE`, `SCORE n`, `LIVES n` and `DIE`. Outbound messages are appended to `sent`.
  - The Java class extends `Game`; here it owns a `Game` and calls into it.
- **The end-of-game score tables** (`ScoreTable`, from `ScoresScene.java`):
  - the `name:score` lines of the scores file. A line that does not read as a name and a number throws inside `loadScores`. `displayLocalScores` catches the exception and carries on with the entries read before that line, unsorted; when it then rewrites the file, that line and every later one are lost;
  - the `HISCORES` message and the `HISCORE <name>:<score>` message;
  - the placement of a new score into a table of ten.
- **The live leaderboard and chat line** (`LiveLeaderboard`, from `MultiplayerScene.java`), rebuilt from `SCORES` and `MSG` messages.

Three support modules hold shared definitions:

- `Strings` models the `java.lang.String` and `Integer` operations the code relies on: `contains`, `replaceFirst`, `split`, `Integer.valueOf` (on ASCII digits) and `Integer.toString`.
- `Ranking` models the score lists and their ordering: a stable ascending sort followed by `Collections.reverse`.
- `GamePieces` models the 3x3 pattern and value of a piece.

Each file is modelled in its own form:

- Classes whose fields the Java code updates become Dafny classes, with `modifies` frames on their methods.
- Loops become `while`/`for` loops with invariants. Each loop is proved against a specification predicate or function:
  - `Fits` (`canPlayPiece`), `Painted` (`playPiece`), `RowFull` and `ColumnFull` (the line counts);
  - `FullRowsBelow`, `FullColumnsBelow` and `ScoredLines` (the two passes of `afterPiece`);
  - `ReadableFrom`, `ReadablePrefix` and `FileEntries` (reading the scores file);
  - `FileLines` and `TestLines` (writing it);
  - `Pairs`, `Triples`, `DeadStatuses` and `Below` (the score messages and the placement count).
- Each message and file format is a pure function with a round-trip lemma.
  - The code both writes and reads the scores-file line and file and `MSG <text>`.
  - It only reads the server's `PIECE n`, `HISCORES …` and `SCORES …` replies. The model supplies their server-side formatter, since the server is not part of this model.
  - It only writes `HISCORE <name>:<score>`. The model supplies its parser, which shows the text can be read back unambiguously.
  - The outbound `PIECE`, `HISCORES`, `SCORES`, `SCORE n`, `LIVES n` and `DIE` messages are only written. Their exact text is stated in the contracts of the methods that send them, and no round trip is claimed.

## Model

| member | source | states |
|---|---|---|
| Board.ColourFor | src/main/java/uk/ac/soton/comp1206/game/Grid.java:147-149 | A counter of 1..15 is used as it is; above 15 it restarts at 1. For any counter of at least 1 the painting colour lies in 1..15. |
| Board.Grid.constructor | src/main/java/uk/ac/soton/comp1206/game/Grid.java:47-60 | A new board has the given size, every cell is 0 and the colour counter is 1. |
| Board.Grid.Set | src/main/java/uk/ac/soton/comp1206/game/Grid.java:78-80 | Cell (x, y) takes the value; every other cell keeps its value. |
| Board.Grid.Get | src/main/java/uk/ac/soton/comp1206/game/Grid.java:88-96 | Returns the stored value on the board, and -1 for every coordinate off it, negative ones included. |
| Board.Grid.CanPlayPiece | src/main/java/uk/ac/soton/comp1206/game/Grid.java:121-138 | Returns true exactly when every shape cell, centred on (x, y), lies on the board on a 0 cell. It changes no state. |
| Board.Grid.PlayPiece | src/main/java/uk/ac/soton/comp1206/game/Grid.java:146-168 | Only the cells under shape cells change, each to its old value plus the colour, or to 0 past PIECES. The colour is in 1..15 and the counter moves on exactly once. After a fitting placement every painted cell holds the colour. |
| Board.Grid.CountInRow | src/main/java/uk/ac/soton/comp1206/game/Game.java:195-203 | The count of occupied cells in a row reaches `cols` exactly when the row is full. |
| Board.Grid.CountInColumn | src/main/java/uk/ac/soton/comp1206/game/Game.java:215-223 | The count of occupied cells in a column reaches `rows` exactly when the column is full. |
| Engine.ScoredStep | src/main/java/uk/ac/soton/comp1206/game/Game.java:273-280 | One `score` call adds exactly `lines*blocks*10*multiplier`. The level rises by one exactly when the new score is 1000 or more above the threshold, and the threshold then moves up by exactly 1000. Level and threshold never fall. |
| Engine.LevelTrailsLargeCredit | src/main/java/uk/ac/soton/comp1206/game/Game.java:273-280 | A single credit of 2500 from 0 raises the level to 1, not 2: the level rises at most once per call. |
| Engine.ScoredLinesTotals | src/main/java/uk/ac/soton/comp1206/game/Game.java:191-232 | Scoring a list of full lines at one multiplier adds `10*m` points per cleared block. The level rises by at most one per line, and the bookkeeping stays consistent. |
| Engine.ScoredLinesAppend | src/main/java/uk/ac/soton/comp1206/game/Game.java:191-232 | Scoring the rows and then the columns is the same as scoring the joined list of lines. |
| Engine.TimerDelay | src/main/java/uk/ac/soton/comp1206/game/Game.java:394-396 | The delay is never below 2500 and at most 12000 for a level of at least 0. It equals 2500 exactly from level 19 on. |
| Engine.TimerDelayNonIncreasing | src/main/java/uk/ac/soton/comp1206/game/Game.java:394-396 | A higher level never gets a longer turn. |
| Engine.Clamp | src/main/java/uk/ac/soton/comp1206/game/Game.java:323-333 | A cursor coordinate always ends in 0..4. A value inside that range is kept as it is, and values outside it go to the nearer bound. |
| Engine.Game.constructor | src/main/java/uk/ac/soton/comp1206/game/Game.java:82-88 | A new game has an empty board, score 0, level 0, lives 3 and multiplier 1. Its two drawn pieces are current and following, and no countdown is running. |
| Engine.Game.Start | src/main/java/uk/ac/soton/comp1206/game/Game.java:93-106 | Starting runs `gameLoop`: with lives left a countdown of `TimerDelay(level)` is armed, otherwise the game stops. |
| Engine.Game.BlockClicked | src/main/java/uk/ac/soton/comp1206/game/Game.java:112-123 | A click places the piece exactly when it fits; a rejected click changes nothing. After a placement: the piece is painted and full lines are scored at the old multiplier. The multiplier is updated, the countdown restarts, and the following piece becomes current. |
| Engine.Game.Place | src/main/java/uk/ac/soton/comp1206/game/Game.java:116-119 | Paints the fitting piece, then states everything `afterPiece` does, reported on the painted board. |
| Engine.Game.NextPiece | src/main/java/uk/ac/soton/comp1206/game/Game.java:174-186 | The following piece becomes current and the new draw follows it. |
| Engine.Game.AfterPiece | src/main/java/uk/ac/soton/comp1206/game/Game.java:191-242 | The reported lines are every full row, then every full column; no cell changes. Each line is one `score(1, blocks)` call at the old multiplier. The multiplier becomes old+1 if any line was full, however many, and 1 otherwise. |
| Engine.Game.ScoreFullLines | src/main/java/uk/ac/soton/comp1206/game/Game.java:191-232 | The row pass followed by the column pass reports all full lines and scores them in that order. |
| Engine.Game.ScoreFullRows | src/main/java/uk/ac/soton/comp1206/game/Game.java:194-212 | Every full row, top to bottom, is scored with `score(1, cols)`. |
| Engine.Game.ScoreFullColumns | src/main/java/uk/ac/soton/comp1206/game/Game.java:214-232 | Every full column, left to right, is scored with `score(1, rows)`. |
| Engine.Game.Score | src/main/java/uk/ac/soton/comp1206/game/Game.java:273-280 | The score, level and threshold become what `Scored` computes. The properties of `Scored` are in `ScoredStep`. |
| Engine.Game.SwapCurrentPiece | src/main/java/uk/ac/soton/comp1206/game/Game.java:299-305 | Current and following piece are exchanged, so swapping twice restores them. |
| Engine.Game.SetCurrentX | src/main/java/uk/ac/soton/comp1206/game/Game.java:323-333 | The cursor column moves by the change, clamped into 0..4. |
| Engine.Game.SetCurrentY | src/main/java/uk/ac/soton/comp1206/game/Game.java:339-349 | The cursor row moves by the change, clamped into 0..4. |
| Engine.Game.GameLoop | src/main/java/uk/ac/soton/comp1206/game/Game.java:362-388 | With no lives left (lives < 0) the game stops and no countdown is armed; otherwise a countdown of `TimerDelay(level)` is armed. |
| Engine.Game.ForfeitTurn | src/main/java/uk/ac/soton/comp1206/game/Game.java:377-378 | The multiplier becomes 1 and one life is lost. |
| Engine.Game.Timeout | src/main/java/uk/ac/soton/comp1206/game/Game.java:373-383 | When the countdown expires: multiplier 1, one life fewer, the pieces advance, and `gameLoop` runs again. |
| Engine.Game.StopGame | src/main/java/uk/ac/soton/comp1206/game/Game.java:404-406 | The game is marked stopped. |
| Engine.Game.StopGameTimer | src/main/java/uk/ac/soton/comp1206/game/Game.java:415-419 | The countdown is cancelled. |
| Multiplayer.Deliver | src/main/java/uk/ac/soton/comp1206/game/MultiplayerGame.java:108-117 | While the flag is set, a delivery fills the current slot and clears the flag. Afterwards deliveries fill the next slot, and the flag is never set again. |
| Multiplayer.DeliveriesRoute | src/main/java/uk/ac/soton/comp1206/game/MultiplayerGame.java:108-117 | From a new game: the first delivered piece is the current one for good, and the next slot holds the latest later delivery (or nothing after one delivery). |
| Multiplayer.PieceMessageRoundTrip | src/main/java/uk/ac/soton/comp1206/game/MultiplayerGame.java:39-44 | `"PIECE " + n` is acted on, and stripping the first `"PIECE "` yields text that `Integer.valueOf` reads back as `n`. |
| Multiplayer.MultiplayerGame.constructor | src/main/java/uk/ac/soton/comp1206/game/MultiplayerGame.java:23-30 | A new networked game has a fresh engine, no delivered pieces, and exactly two `PIECE` requests sent. |
| Multiplayer.MultiplayerGame.GetPiece | src/main/java/uk/ac/soton/comp1206/game/MultiplayerGame.java:35-37 | Sends one `PIECE` request. |
| Multiplayer.MultiplayerGame.Start | src/main/java/uk/ac/soton/comp1206/game/Game.java:93-106 | Starting runs the networked `gameLoop`. |
| Multiplayer.MultiplayerGame.ReceiveCommunication | src/main/java/uk/ac/soton/comp1206/game/MultiplayerGame.java:39-44 | Only a message containing `PIECE` changes the slots. It delivers the piece whose index is the message with its first `"PIECE "` removed. |
| Multiplayer.MultiplayerGame.ReceivePieceCommunication | src/main/java/uk/ac/soton/comp1206/game/MultiplayerGame.java:108-117 | The slots become `Deliver(old slots, createPiece(index))`. |
| Multiplayer.MultiplayerGame.BlockClicked | src/main/java/uk/ac/soton/comp1206/game/MultiplayerGame.java:47-62 | A click places the delivered current piece exactly when it fits. A rejected click, or one with no current piece, changes nothing and sends nothing. A placement paints and scores as the engine does, records whether any line was cleared, and restarts the turn. It sends any `DIE`, then `SCORE <new score>`, then `PIECE`, and the next piece becomes current. |
| Multiplayer.MultiplayerGame.PlayTurn | src/main/java/uk/ac/soton/comp1206/game/MultiplayerGame.java:55-60 | The placing branch of a click: paint, score, record whether any line was cleared, `gameLoop`, `SCORE n`, then `nextPiece`, with the messages in that order. |
| Multiplayer.MultiplayerGame.GameLoop | src/main/java/uk/ac/soton/comp1206/game/MultiplayerGame.java:65-96 | As the engine's `gameLoop`, and `DIE` is sent exactly when no lives are left. |
| Multiplayer.MultiplayerGame.Timeout | src/main/java/uk/ac/soton/comp1206/game/MultiplayerGame.java:78-91 | When the countdown expires: multiplier 1, one life fewer, `LIVES <lives>` and `PIECE` are sent, the next piece becomes current, and `gameLoop` runs again. |
| Multiplayer.MultiplayerGame.NextPiece | src/main/java/uk/ac/soton/comp1206/game/MultiplayerGame.java:99-106 | The next piece becomes current and exactly one `PIECE` request is sent. |
| Multiplayer.MultiplayerGame.SwapCurrentPiece | src/main/java/uk/ac/soton/comp1206/game/MultiplayerGame.java:129-135 | The current and next slots are exchanged, so swapping twice restores them. |
| Strings.Contains | src/main/java/uk/ac/soton/comp1206/game/MultiplayerGame.java:40 | `contains` holds exactly when the text occurs at some index. |
| Strings.IndexFrom | src/main/java/uk/ac/soton/comp1206/game/MultiplayerGame.java:40 | Returns the first occurrence at or after `from`, or nothing when there is no occurrence there. |
| Strings.ReplaceFirst | src/main/java/uk/ac/soton/comp1206/game/MultiplayerGame.java:41 | A message without the pattern comes back unchanged. |
| Strings.ReplaceFirstLeading | src/main/java/uk/ac/soton/comp1206/scene/MultiplayerScene.java:230 | Removing a leading prefix leaves exactly the rest of the message. |
| Strings.DropTrailingEmpty | src/main/java/uk/ac/soton/comp1206/scene/ScoresScene.java:103 | `split` keeps a prefix of the pieces that does not end in an empty string. Everything it drops is empty. |
| Strings.SplitCharPair | src/main/java/uk/ac/soton/comp1206/scene/ScoresScene.java:103 | `"a:b".split(":")`, with `b` non-empty and neither part holding ':', is exactly `[a, b]`. |
| Strings.SplitRunsJoin | src/main/java/uk/ac/soton/comp1206/scene/ScoresScene.java:155 | Splitting at runs of separators recovers non-empty, separator-free tokens that were joined with separators. |
| Strings.ParseIntToString | src/main/java/uk/ac/soton/comp1206/scene/ScoresScene.java:104 | `Integer.valueOf` of a printed 32-bit integer returns that integer. |
| Strings.IntToStringPlain | src/main/java/uk/ac/soton/comp1206/scene/ScoresScene.java:126 | A printed integer is non-empty and holds no ':' or line break. |
| Ranking.InsertAscending | src/main/java/uk/ac/soton/comp1206/scene/ScoresScene.java:110 | Inserting into an ascending list gives an ascending list one longer. |
| Ranking.InsertPermutes | src/main/java/uk/ac/soton/comp1206/scene/ScoresScene.java:110 | Insertion adds the entry and loses nothing. |
| Ranking.SortAscending | src/main/java/uk/ac/soton/comp1206/scene/ScoresScene.java:110 | The sort by score is ascending and a permutation of its input. |
| Ranking.Reverse | src/main/java/uk/ac/soton/comp1206/scene/ScoresScene.java:111 | Entry `i` of the result is entry `n-1-i` of the input. |
| Ranking.ReversePermutes | src/main/java/uk/ac/soton/comp1206/scene/ScoresScene.java:111 | Reversal is a permutation. |
| Ranking.SortDescending | src/main/java/uk/ac/soton/comp1206/scene/ScoresScene.java:110-111 | Sorting then reversing gives a non-increasing permutation of the list. |
| Ranking.BelowIsSuffix | src/main/java/uk/ac/soton/comp1206/scene/ScoresScene.java:258-263 | In a non-increasing table, the entries scoring strictly below a score are exactly the last `Below` of them. |
| ScoreTable.LineRoundTrip | src/main/java/uk/ac/soton/comp1206/scene/ScoresScene.java:103-104 | A line `name:score` written for an entry whose name has no ':' and no line break holds no line break, and splits and parses back to that entry. |
| ScoreTable.ReadablePrefix | src/main/java/uk/ac/soton/comp1206/scene/ScoresScene.java:99-108 | The number of lines read before the first one that throws: every line before it reads, the line at it does not, and it covers the whole file exactly when every line reads. |
| ScoreTable.FileEntries | src/main/java/uk/ac/soton/comp1206/scene/ScoresScene.java:102-108 | Reading a file gives one entry per line, in file order. |
| ScoreTable.FileLines | src/main/java/uk/ac/soton/comp1206/scene/ScoresScene.java:125-128 | Writing gives one line per entry. |
| ScoreTable.FileRoundTrip | src/main/java/uk/ac/soton/comp1206/scene/ScoresScene.java:102-128 | Writing a table whose names hold no ':' and no line break gives lines that each read, and reading them back gives the same table, in the same order. |
| ScoreTable.TestLinesEntries | src/main/java/uk/ac/soton/comp1206/scene/ScoresScene.java:131-135 | The placeholder file reads as entries `("test", i)` for i in 0..9. |
| ScoreTable.PairsInterleave | src/main/java/uk/ac/soton/comp1206/scene/ScoresScene.java:159-166 | Consuming the tokens two at a time gives back the entries that were listed. |
| ScoreTable.HiscoresRoundTrip | src/main/java/uk/ac/soton/comp1206/scene/ScoresScene.java:151-166 | A `HISCORES` message listing sendable entries is acted on. Its tokens are well formed and are read back as exactly those entries, in order. |
| ScoreTable.HiscoreRoundTrip | src/main/java/uk/ac/soton/comp1206/scene/ScoresScene.java:174-176 | The `HISCORE <name>:<score>` message parses back to the name and score it was sent for, when the name holds no '>'. |
| ScoreTable.PlaceAt | src/main/java/uk/ac/soton/comp1206/scene/ScoresScene.java:278-280 | `remove(9)` then `add(k, e)` keeps the length. |
| ScoreTable.PlaceAtTen | src/main/java/uk/ac/soton/comp1206/scene/ScoresScene.java:278-280 | In a table of ten: entries before `k` stay, `e` is at `k`, the later ones shift down by one, and the last entry drops out. |
| ScoreTable.TopTenPlacement | src/main/java/uk/ac/soton/comp1206/scene/ScoresScene.java:274-280 | A score beating some of ten non-increasing entries goes in at `10 - index`. The result is still ten long and non-increasing, with every entry above at least as high and every entry below strictly lower. |
| ScoreTable.CountBelow | src/main/java/uk/ac/soton/comp1206/scene/ScoresScene.java:258-263 | `index` is the number of entries scoring strictly below the player's score. |
| ScoreTable.Slot | src/main/java/uk/ac/soton/comp1206/scene/ScoresScene.java:265-274 | A name field is offered exactly when `index` is not 0. |
| ScoreTable.ScoresScene.constructor | src/main/java/uk/ac/soton/comp1206/scene/ScoresScene.java:33-53 | Both tables start empty, nothing has been sent, and no name field is open. |
| ScoreTable.ScoresScene.LoadScores | src/main/java/uk/ac/soton/comp1206/scene/ScoresScene.java:94-113 | Without a readable file nothing changes. When every line reads, the file's entries are appended in file order and the whole list is then sorted into a non-increasing permutation. Otherwise it throws: only the entries before the first bad line are appended, and the list is not sorted. |
| ScoreTable.ScoresScene.ReadLines | src/main/java/uk/ac/soton/comp1206/scene/ScoresScene.java:99-108 | The reading loop appends the entry of each line in file order and stops at exactly the first line that does not read. |
| ScoreTable.ScoresScene.WriteScores | src/main/java/uk/ac/soton/comp1206/scene/ScoresScene.java:119-137 | An existing file, readable or not, is replaced with one line per entry, in list order. A missing one is created with `test:0` .. `test:9`. |
| ScoreTable.ScoresScene.LoadOnlineScores | src/main/java/uk/ac/soton/comp1206/scene/ScoresScene.java:142-145 | Sends exactly `HISCORES`. |
| ScoreTable.ScoresScene.ReceiveCommunication | src/main/java/uk/ac/soton/comp1206/scene/ScoresScene.java:151-168 | Only a `HISCORES` message changes the online table. Its pairs are appended in message order. |
| ScoreTable.ScoresScene.WriteOnlineScore | src/main/java/uk/ac/soton/comp1206/scene/ScoresScene.java:174-176 | Sends exactly `HISCORE <name>:<score>`. |
| ScoreTable.ScoresScene.DisplayLocalScores | src/main/java/uk/ac/soton/comp1206/scene/ScoresScene.java:245-321 | The table is loaded, and an exception from a bad line is caught: the table then holds the old entries plus those before that line, unsorted. `index` is counted. With index 0 the table is left as loaded and the file is rewritten from it, so a bad line and every later one are lost, and an unreadable file is replaced without ever being read. Otherwise a name field for slot `10 - index` is opened and the file is left alone. |
| ScoreTable.ScoresScene.EnterLocalName | src/main/java/uk/ac/soton/comp1206/scene/ScoresScene.java:275-286 | The entered name is placed with `PlaceAt` at the open slot, and the file is rewritten. |
| ScoreTable.ScoresScene.DisplayOnlineScores | src/main/java/uk/ac/soton/comp1206/scene/ScoresScene.java:181-201 | The online `index` is counted, and a name field is opened exactly when it is not 0. |
| ScoreTable.ScoresScene.EnterOnlineName | src/main/java/uk/ac/soton/comp1206/scene/ScoresScene.java:202-210 | Sends the `HISCORE` message, then places the entry into the online table at the open slot. |
| LiveLeaderboard.Triples | src/main/java/uk/ac/soton/comp1206/scene/MultiplayerScene.java:275-288 | Each (name, score, status) triple adds exactly one score entry. |
| LiveLeaderboard.DeadStatuses | src/main/java/uk/ac/soton/comp1206/scene/MultiplayerScene.java:277-283 | Every (name, status) pair kept has a status containing `DEAD`, and there is at most one per triple. |
| LiveLeaderboard.DeadAreListed | src/main/java/uk/ac/soton/comp1206/scene/MultiplayerScene.java:275-288 | Every player reported dead also has a score entry under the same name. |
| LiveLeaderboard.TriplesInterleave | src/main/java/uk/ac/soton/comp1206/scene/MultiplayerScene.java:275-288 | The tokens of listed players are consumed into their standings and their dead players. |
| LiveLeaderboard.LeaderboardRoundTrip | src/main/java/uk/ac/soton/comp1206/scene/MultiplayerScene.java:259-288 | A `SCORES` message listing sendable players is acted on. It gives one score entry per player and reports exactly the players whose status contains `DEAD`. |
| LiveLeaderboard.ChatRoundTrip | src/main/java/uk/ac/soton/comp1206/scene/MultiplayerScene.java:228-231 | `"MSG " + text` is acted on and shows exactly `text`. |
| LiveLeaderboard.MultiplayerScene.constructor | src/main/java/uk/ac/soton/comp1206/scene/MultiplayerScene.java:48-57 | The chat line reads `Press <T> to chat` and both lists start empty. |
| LiveLeaderboard.MultiplayerScene.ReceiveCommunication | src/main/java/uk/ac/soton/comp1206/scene/MultiplayerScene.java:228-242 | A message containing `MSG` sets the chat line, and one containing `SCORES` rebuilds both lists. The two checks are independent. |
| LiveLeaderboard.MultiplayerScene.ReceiveChat | src/main/java/uk/ac/soton/comp1206/scene/MultiplayerScene.java:248-250 | The chat line becomes the text. |
| LiveLeaderboard.MultiplayerScene.GetUserScores | src/main/java/uk/ac/soton/comp1206/scene/MultiplayerScene.java:252-254 | Sends exactly `SCORES`. |
| LiveLeaderboard.MultiplayerScene.DisplayLeaderboard | src/main/java/uk/ac/soton/comp1206/scene/MultiplayerScene.java:259-298 | Both lists are rebuilt from this message only. The scores are the message's entries in descending order, and the dead list holds its `DEAD` players in message order. |
| LiveLeaderboard.MultiplayerScene.SortScores | src/main/java/uk/ac/soton/comp1206/scene/MultiplayerScene.java:290-291 | The sort followed by the reverse leaves the list as `SortDescending`: a non-increasing permutation. |

## Left out

- JavaFX scene building, layout, animations, key and mouse dispatch, and the listener callbacks (`pieceListener`, `lineClearedListener`, `highScoreListener`, `gameLoopListener`) are presentation only. Full lines are returned as `Line` values instead of being passed to the line-cleared listener.
- Audio playback (`Multimedia`) has no state the game reads.
- `java.util.Timer`, `TimerTask` and `Platform.runLater` are not modelled as concurrency.
  - The turn timer is the `Clock` field plus an explicit `Timeout` step.
  - Work posted with `runLater` is taken to run at once, in order.
- The network transport (`Communicator`) is replaced: outbound messages are appended to `sent`, and inbound messages are method arguments.
- File I/O: the scores file is a `ScoresFile` value: `Missing`, `Unreadable` (it exists, but `canRead` fails) or `Readable` with its lines. Exceptions raised by the reader and writer themselves are not modelled.
- `Random` piece choice and `GamePiece.createPiece` are outside the model. The drawn piece is a method parameter, and `createPiece` is a function field of `MultiplayerGame`. The piece catalogue, `rotate` and `rotateCurrentPiece` are not part of this model; `GamePiece.PIECES` is taken as 15.
- Getters and setters (`getColour`, `getScoreProperty` and the like) are direct field reads and writes.
- Integers are unbounded: 32-bit overflow of the score is not modelled. Round trips through `Integer.valueOf` are stated for 32-bit values.
- `replaceFirst` is modelled as a literal replacement, because every pattern the code passes to it is free of regular-expression metacharacters.
- Malformed server messages throw in Java, and nothing catches the exception:
  - a `PIECE` message whose number `Integer.valueOf` rejects;
  - a `HISCORES` message whose tokens do not pair up or whose scores are not numbers;
  - a `SCORES` message whose tokens do not form triples or whose scores are not numbers.
  These are preconditions (`ParseInt(...).Some?`, `WellFormedPairs`, `WellFormedTriples`). No drop-and-continue behaviour is invented. A malformed scores-file line is different, because that exception is caught; `ScoreTable.ScoresScene.LoadScores` models it.
- `Board.Grid.Set` and `Board.Grid.PlayPiece` require their cells to lie on the board; Java would throw `ArrayIndexOutOfBoundsException` otherwise. The code only paints after `canPlayPiece` has approved the placement.
- `ScoreTable.ScoresScene.EnterLocalName` and `ScoreTable.ScoresScene.EnterOnlineName` require at least ten entries and a slot inside the list, as `remove(9)` and `add(finalIndex, …)` throw otherwise. `TopTenPlacement` states the ordering result for a table of exactly ten, which is the size the file keeps. For a longer online table, the placement may break the descending order.
- The online table (`remoteScores`) is appended as received and never sorted, as in the code.
- Multiplayer.MultiplayerGame.BlockClicked: a click before any piece has been delivered throws a `NullPointerException` in Java. It is modelled as a rejected click that changes nothing.
- Engine.Game.BlockClicked: like the code, it does not consult `stop`. A stopped game still accepts placements; only the timer and the UI stop.
- The level rises at most once per `score` call (`Engine.LevelTrailsLargeCredit`). A single large credit therefore leaves the level below `score / 1000`. The model follows the code.
- The sort is stable ascending followed by a reversal, so entries with equal scores end up in reverse input order. `Ranking.SortDescending` states non-increasing order and a permutation. It does not state the order among equal scores.
- A name or status containing a line break cannot be written to or read from the formats. The round-trip lemmas require fields without separators or line breaks.
- Strings.ParseInt: only the ASCII digits '0'..'9' are read. `Integer.valueOf` also accepts every other Unicode decimal digit (for example `"\u0663"` reads as 3), which the model rejects. A scores-file line or `PIECE` message written with such digits is therefore treated as one that throws.
- ScoreTable.ScoresScene.ReadLines: the file is a list of lines, none of which holds a line break. A table entry whose name holds one is written as a single line holding it, and the model then reads that line as one that throws. `println` and `readLine` split it into two lines instead. Java then throws on the first of the two, as the model does, unless that part itself reads as `name:score`.
