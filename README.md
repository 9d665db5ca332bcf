# FruitCollect orchard engine, modelled in Dafny

FruitCollect is a small Java game. A player walks on a rectangular orchard of fruit
trees and ponds and collects ripe fruit. Bad fruit or a pond kills the player. Every
generation, the fruit of mature trees turns bad and up to three random trees ripen. The
game is won when every tracked fruit type has reached its goal count.

The model covers the game engine:

- `FruitTrees`: the tree, with its `mature` and `badFruit` flags.
- `Ponds`: the pond.
- `OrchardObjects`: the occupant interface, as a closed union `Cell = Pond | Tree(tree)`. An
  empty position is `None`, for the source's null.
- `OrchardBoards`: the board, which deep-copies its setup.
- `Players`: the player token.
- `FruitCollectGames`: the session, with its two constructors, the default-settings
  delegate, `move`, `nextGen` and the ledger queries.

Trees, the player and the session are classes whose methods change their fields in place.
The board is a class too. Its fields are constants, and none of its methods changes them;
what changes is the trees it holds. Each method is proved against a pure specification:

- `TreeState`, with `Matured`, `TurnedBad` and `Meet`.
- `CellView`, the value an occupant shows, with `MeetView` and `CloneView`.
- `Advanced` and `Ripens` for one generation.
- `RandomView` for the random board.

The board's ghost map `Pos` places every tree at exactly one position. That is how the
proofs know that changing one tree changes no other position.

Thrown exceptions become `Result.Err` or `Outcome.Fail`. Where the source throws with a
message, the model carries that message. Moving onto an empty position is an implicit null
dereference with no message of its own; its `NULL_CELL` text is the model's.
Random numbers become parameters:

- `NextGen` takes the three drawn positions.
- `Random` takes the key order of the fruit map and one pond roll and one type pick per
  position.

The model follows the code literally in these places. Only the skip rule contradicts a
comment, the nextGen Javadoc (src/FruitCollectGame.java:299-300); the others are behaviour
that no comment describes:

- `move` assigns `ended` from the meeting, so it is not a one-way latch. A further move
  onto an ordinary tree reopens a finished game (`MoveCanReopen`). Only the driver's
  `!hasEnded()` guard (src/Game.java:182) stops it.
- Moving onto an empty position dereferences null in the source. The model returns
  `Fail(NULL_CELL)` after the player has moved; it does not treat the cell as empty ground.
- `nextGen` skips every pick that shares the row or the column of the player
  (`randomX != getPlayerX() && randomY != getPlayerY()`). Its comment promises only to spare
  the player's own cell. The literal rule is what `Ripens` states.
- The random board's start tree uses the first key that the fruit map's key set yields. That
  is the `order[0]` of an arbitrary key order, not a fixed "first kind".
- The board checks only that it has rows and that its first row is non-empty. The source's
  `orchard.length > 0 && orchard[0].length > 0` is the model's `Length0 > 0 && Length1 > 0`
  on a rectangular `array2`.
- The exception messages are the source's, including the spelling "invalid dimentions".

## Model

| member | source | states |
|---|---|---|
| Ledgers.Collect | src/FruitTree.java:162-166 | A kind's count goes up by one, or the kind is inserted at 1 when absent; the key set gains only that kind and every other count is unchanged |
| FruitTrees.Meet | src/FruitTree.java:154-170 | It fails only on good fruit with a null ledger. It kills exactly on bad fruit. Good fruit is collected into the ledger and the tree becomes immature. Otherwise ledger and tree are unchanged, even with a null ledger. Afterwards the tree never offers good fruit, and bad ⟹ mature is kept |
| FruitTrees.LifecyclePreservesValid | src/FruitTree.java:65-83 | mature() and turnBad() keep bad ⟹ mature and keep the type. mature() never clears bad fruit. After turnBad() the fruit is bad exactly when the tree was mature |
| FruitTrees.OneGenerationWindow | src/FruitTree.java:72-83 | A new tree that has matured bears good fruit, and bad fruit after one turnBad() |
| FruitTrees.CollectThenMeetAgain | src/FruitTree.java:154-170 | Collecting and meeting the tree again at once collects nothing more and kills no one |
| FruitTrees.FruitTree.constructor | src/FruitTree.java:25-30 | A new tree has the given type and colour, and is immature and not bad |
| FruitTrees.FruitTree.Copy | src/FruitTree.java:33-38 | The all-fields constructor stores exactly its arguments |
| FruitTrees.FruitTree.IsBadFruit | src/FruitTree.java:65-67 | Bad fruit implies mature. Under the invariant it is the raw flag |
| FruitTrees.FruitTree.Mature | src/FruitTree.java:72-74 | The new state is `Matured` of the old one |
| FruitTrees.FruitTree.TurnBad | src/FruitTree.java:79-83 | The new state is `TurnedBad` of the old one: only a mature tree's fruit turns bad |
| FruitTrees.FruitTree.MeetPlayer | src/FruitTree.java:154-170 | The result and the new state are those of `Meet`, and a failing call leaves the tree as it was |
| FruitTrees.FruitTree.SameAs | src/FruitTree.java:90-119 | For trees that respect the invariant, equals holds exactly when type, colour, maturity and bad status agree |
| FruitTrees.FruitTree.Clone | src/FruitTree.java:196-198 | A distinct new tree with the same type, colour and maturity, with badFruit set from isBadFruit(). The clone equals the original, and the original equals the clone under the invariant |
| FruitTrees.FruitTree.ToString | src/FruitTree.java:140-142 | The fruit type |
| Ponds.MeetPlayer | src/Pond.java:42-44 | A pond always kills, whatever the ledger, even a null one |
| Ponds.HashCode | src/Pond.java:26-28 | Every pond hashes to 0 |
| Ponds.ToString | src/Pond.java:34-36 | "Pond" |
| OrchardObjects.MeetView | src/OrchardObject.java:19 | A pond kills and leaves the ledger as it was. For a tree the result is `Meet`'s. The only error is the null-ledger one. The occupant stays a pond or a tree, and stays valid |
| OrchardObjects.MeetPlayer | src/OrchardObject.java:19 | Dispatching meetPlayer returns `MeetView`'s kill flag and ledger, and leaves the occupant as `MeetView` says |
| OrchardObjects.CloneView | src/OrchardObject.java:37 | Null stays null, a pond stays a pond and a tree keeps its type. A valid occupant is reproduced exactly, and every clone is valid |
| OrchardObjects.Clone | src/Pond.java:60-62 | A pond clones to a pond. A tree clones to a fresh tree whose view is `CloneView` of the original's |
| OrchardObjects.Equals | src/Pond.java:18-19 | A pond equals exactly another pond. Valid trees are equal exactly when their views are. Nothing equals null |
| OrchardObjects.ToString | src/Pond.java:34-36 | "Pond" for a pond, the fruit type for a tree |
| OrchardBoards.JoinSnoc | src/OrchardBoard.java:61-67 | Appending a row adds one separator and the row: the step of the toString loop |
| OrchardBoards.SplitJoin | src/OrchardBoard.java:59-69 | Splitting the board text at newlines gives back the row strings, so rows are separated by exactly one newline |
| OrchardBoards.JoinEndsWithLast | src/OrchardBoard.java:62-66 | The text ends with the last row: no newline trails |
| OrchardBoards.OrchardBoard.constructor | src/OrchardBoard.java:24-36 | The board has the setup's dimensions. Every position holds `CloneView` of what the setup holds, with nulls kept null. Every tree on the board is a new object |
| OrchardBoards.OrchardBoard.DeepCopy | src/OrchardBoard.java:28-35 | A fresh grid of the same size holding clones. Every new tree is recorded at its one position |
| OrchardBoards.OrchardBoard.CopyRow | src/OrchardBoard.java:30-34 | One row of the copy is filled with clones; the other rows are untouched |
| OrchardBoards.OrchardBoard.CopyCell | src/OrchardBoard.java:31-33 | One position receives a clone, or null for null; every other position is untouched |
| OrchardBoards.OrchardBoard.Build | src/OrchardBoard.java:20-39 | A null setup fails with "orchard is null". A setup without rows or columns fails with "empty orchard". Every other setup yields a valid board that copies it |
| OrchardBoards.OrchardBoard.GetWidth | src/OrchardBoard.java:45-47 | The row length, which is positive |
| OrchardBoards.OrchardBoard.GetHeight | src/OrchardBoard.java:52-54 | The number of rows, which is positive |
| OrchardBoards.OrchardBoard.OnBoard | src/OrchardBoard.java:77-79 | Holds exactly when 0 ≤ x < width and 0 ≤ y < height |
| OrchardBoards.OrchardBoard.GetObject | src/OrchardBoard.java:87-93 | Null off the board. On the board, the stored occupant at row y, column x itself, not a copy, so a tree it returns is the tree at (x, y) |
| OrchardBoards.OrchardBoard.FootprintAt | src/FruitCollectGame.java:284 | Meeting the occupant at (x, y) can change only the tree at (x, y) |
| OrchardBoards.OrchardBoard.HasObject | src/OrchardBoard.java:101-103 | Holds exactly when the position is on the board and not empty |
| OrchardBoards.JoinNoNewline | src/OrchardBoard.java:61-67 | Joining newline-free parts with a newline-free separator gives newline-free text |
| OrchardBoards.OrchardBoard.RowStringShape | src/OrchardBoard.java:63-65 | A row's Arrays.toString text is bracketed, and has no line break when no tree type does |
| OrchardBoards.OrchardBoard.TextLines | src/OrchardBoard.java:59-69 | When no tree type holds a line break, splitting the board text at line breaks gives back the rows, one per board row, in order |
| OrchardBoards.OrchardBoard.ToString | src/OrchardBoard.java:59-69 | The loop's text is the row strings joined by newlines; when no tree type holds a line break, its lines are exactly the board's rows |
| Players.Player.constructor | src/Player.java:16-19 | The token stands exactly at the given position |
| Players.Player.Move | src/Player.java:41-44 | Both coordinates become the arguments, with no check. The new state does not depend on the old one, so a repeated move changes nothing more |
| FruitCollectGames.EmptyLedgerMeetsGoal | src/FruitCollectGame.java:228-235 | The goal holds vacuously for an empty ledger |
| FruitCollectGames.AdvancedProperties | src/FruitCollectGame.java:302-325 | After one generation, every tree that was mature bears bad fruit and bad fruit stays bad. bad ⟹ mature is kept. Only a tree that ripens can become mature. Type and colour never change |
| FruitCollectGames.SkipRule | src/FruitCollectGame.java:298-317 | The player's own position never ripens, whatever the picks, and neither does any position in the player's column or row |
| FruitCollectGames.SkipSparesPlayerRow | src/FruitCollectGame.java:317 | A pick next to the player in the player's row does not ripen, so the skip is wider than the player's cell |
| FruitCollectGames.RipenedAtMost | src/FruitCollectGame.java:314-324 | At most as many positions ripen as there are picks, so at most MAX_MATURE_PER_GEN per generation |
| FruitCollectGames.MoveCanReopen | src/FruitCollectGame.java:284 | Meeting an immature tree with the goal unmet leaves `ended` false, whatever it was before |
| FruitCollectGames.KindsInContains | src/FruitCollectGame.java:57-64 | Every tree type found on the grid is in `KindsIn` |
| FruitCollectGames.KindsInOnly | src/FruitCollectGame.java:57-64 | Only types of trees on the grid are in `KindsIn` |
| FruitCollectGames.TrackedKinds | src/FruitCollectGame.java:56-64 | The loop's ledger has exactly the grid's tree types as keys, each at 0 |
| FruitCollectGames.CopiedTrees | src/OrchardBoard.java:28-36 | Every tree on a board copied from a setup has a type of the setup and respects bad ⟹ mature |
| FruitCollectGames.RandomCheck | src/FruitCollectGame.java:86-98 | The constructor's checks in their order, with their messages: dimensions, then the fruit map, then the pond percent, then the start. All pass exactly when every condition holds |
| FruitCollectGames.RandomStartIsTree | src/FruitCollectGame.java:124-125 | The start position is never a pond. It holds a tree of the first listed type |
| FruitCollectGames.RandomViewFacts | src/FruitCollectGame.java:114-125 | Every random position is valid. A tree is immature, not bad, and of a type of the map with that type's colour. A position is a pond exactly when it is not the start and its roll fell below the pond percent |
| FruitCollectGames.NoPondsAtZeroPercent | src/FruitCollectGame.java:116 | A pond percent of 0 produces no pond |
| FruitCollectGames.ZeroLedger | src/FruitCollectGame.java:104-109 | The ledger tracks exactly the map's types, each at 0, including types that never land on the board |
| FruitCollectGames.PlantCell | src/FruitCollectGame.java:116-121 | One position receives a new pond or a new tree as `DrawnView` says; no other position changes |
| FruitCollectGames.PlantRow | src/FruitCollectGame.java:115-122 | One row is filled as `DrawnView` says; the other rows are untouched |
| FruitCollectGames.PlantedGrid | src/FruitCollectGame.java:112-125 | A fresh grid of the requested size in which every position is as `RandomView` says |
| FruitCollectGames.PlantedBoard | src/FruitCollectGame.java:126 | The board copied from the random grid is valid, has the requested size and shows `RandomView` everywhere; its trees are all new objects |
| FruitCollectGames.PlantedTrees | src/FruitCollectGame.java:119-125 | Every tree on the random board is a new tree of a type of the map |
| FruitCollectGames.FruitCollectGame.Init | src/FruitCollectGame.java:46-66 | The session holds the given board, player and ledger, at generation 0, not ended, and satisfies its invariant |
| FruitCollectGames.FruitCollectGame.FromSetup | src/FruitCollectGame.java:46-67 | A null or empty setup fails as the board does. A start off the board fails with "invalid player position", and a start on a pond with "player initialized in a pond". Otherwise the game is valid, the player starts there at generation 0, not ended, and the ledger holds exactly the grid's tree types at 0; the board's trees are new objects, not the setup's |
| FruitCollectGames.FruitCollectGame.Planted | src/FruitCollectGame.java:100-126 | The state `DrawnFrom` describes, on a new board whose trees are all new objects |
| FruitCollectGames.FruitCollectGame.Random | src/FruitCollectGame.java:84-127 | It fails exactly as `RandomCheck` says. Otherwise it yields a new game that is valid, with the player at the start, generation 0, not ended, every map type tracked at 0, and a board of new trees as `RandomView` describes |
| FruitCollectGames.FruitCollectGame.WithDefaults | src/FruitCollectGame.java:140-143 | The random constructor on a 15 x 15 board with 10% ponds and the player at (7, 7): only a null or empty map fails, and otherwise the board's trees are new objects |
| FruitCollectGames.FruitCollectGame.EndGame | src/FruitCollectGame.java:189-191 | The game is ended. The ledger and generation are unchanged, and the invariant is kept |
| FruitCollectGames.FruitCollectGame.GoalAccomplished | src/FruitCollectGame.java:228-235 | True exactly when every tracked count is at least MIN_GOAL_PER_TYPE, and hence true for an empty ledger |
| FruitCollectGames.FruitCollectGame.IsCollecting | src/FruitCollectGame.java:208-210 | Holds exactly for tracked types. Under the invariant, every type on the board is tracked |
| FruitCollectGames.FruitCollectGame.NumCollected | src/FruitCollectGame.java:217-223 | The count of a tracked type, and -1 for an untracked one. With non-negative counts, -1 means untracked |
| FruitCollectGames.FruitCollectGame.GetFruitSet | src/FruitCollectGame.java:196-202 | The set of tracked types |
| FruitCollectGames.FruitCollectGame.Move | src/FruitCollectGame.java:281-289 | Off the board nothing changes. On the board the player moves there even onto a pond or bad fruit. An empty position fails with the ledger and `ended` unchanged. Otherwise the occupant is met as `MeetView` says and `ended` becomes killed or goal met. Always: the invariant holds, the generation and tracked types are unchanged, and no count decreases |
| FruitCollectGames.FruitCollectGame.MeetAt | src/FruitCollectGame.java:284 | Meeting the occupant at (x, y): `MeetView`'s new ledger and occupant, `ended` is the kill flag, and an empty position fails with nothing changed |
| FruitCollectGames.FruitCollectGame.NextGen | src/FruitCollectGame.java:302-325 | Every tree becomes `Advanced` of its old state, ripening exactly where `Ripens` holds. Ponds and empty positions stay as they were. The generation goes up by one. The ledger, `ended`, the invariant and bad ⟹ mature are kept |
| FruitCollectGames.FruitCollectGame.SpoilAll | src/FruitCollectGame.java:305-312 | Every tree's state becomes `TurnedBad` of its old one |
| FruitCollectGames.FruitCollectGame.SpoilColumn | src/FruitCollectGame.java:306-311 | The trees of one column become `TurnedBad`; every other tree is unchanged |
| FruitCollectGames.FruitCollectGame.MaturePicks | src/FruitCollectGame.java:314-324 | A tree matures exactly when `Ripens` holds of its position; every other tree is unchanged |

## Left out

- Swing and the driver (src/Game.java, src/OrchardPanel.java) are not part of this model. That covers timers, key listeners, dialogs and pixel drawing. So are the max-generation loss at src/Game.java:111 and the `!hasEnded()` guard at src/Game.java:182.
- The `draw` methods and `drawObject` are left out: they are java.awt.Graphics calls.
- java.util.Random: the draws are parameters. `NextGen` takes the three positions, each on the board as nextInt(width) and nextInt(height) guarantee. `Random` takes a pond roll and a type pick per position.
- Random: the source draws its numbers in sequence, and draws a type index for non-pond positions only. The model gives each position its own pair of draws, so the correlation between successive draws is not modelled.
- Random: the pond roll is a real number in [0, 100) standing for nextDouble() * 100. Double rounding is not modelled.
- FruitTree.hashCode is left out: it is 32-bit wrapping arithmetic over java.awt.Color's own hash.
- java.awt.Color is an opaque value compared by equality.
- Null fruit types and null colours are not modelled, so the null branches of FruitTree.equals do not arise.
- HashMap iteration order is the `order` parameter of `Random`: any listing of the map's keys.
- Counts, generation numbers and coordinates are unbounded integers. Java's 32-bit overflow after 2^31 collections or generations is not modelled.
- Jagged input arrays are not modelled: the setup is a rectangular `array2`, where the source would read only the first row's width.
- Players.Player.GetX and Players.Player.GetY carry no contract. Each reads a field, and the contracts of `Player.Move` and the constructor are stated through them.
- FruitCollectGames.FruitCollectGame.GetFruitSet: a Dafny set is a value, so the defensive copy the source makes cannot be observed and is not stated.
- The session's other getters (getWidth, getHeight, onBoard, hasObject, getPlayerX, getPlayerY, getGen, hasEnded) are left out: each forwards to the board or reads a field that the contracts above state directly.
- FruitCollectGames.FruitCollectGame.Move: the nested meeting is split out as `MeetAt`, and the loops of nextGen as `SpoilAll`, `SpoilColumn` and `MaturePicks`. The behaviour is the source's, in the source's order.
- FruitCollectGames.FruitCollectGame.FromSetup: two steps are moved before the board copy, where the source runs them after the position checks. The player is allocated first, where the source allocates it after the position check (src/FruitCollectGame.java:52), and the ledger loop runs before the copy. The player is a new object that nothing else reads, and the ledger loop reads only the setup's grid and the trees' constant types, so no step observes the change; an error still returns before either is used.
