# Snake arena simulation engine, in Dafny

This project models the simulation engine of the snake-arena game's
`GameBoard` component (`components/game-board.tsx`) and proves properties of
the model. The game is played on a 20×20 board. Up to four snakes, each
human- or AI-controlled, move one cell per tick. A snake eats food to grow and
dies when it moves into a wall, an obstacle or a snake.

The model covers:

- the obstacle generators of the four maps (classic, death star, kingdoms,
  lake), the `MAP_OBSTACLES` table and the spawn table `MAP_SPAWN_POSITIONS`;
- `isValidPosition`;
- the AI's `getAIDirection`;
- `generateFood`;
- one tick of `moveSnakes`, including the game-over check;
- the direction filter of `handleKeyDown`;
- `getRandomColor` and the colour loop of `initializePlayers`;
- the handlers `startGame`, `resetGame` and `togglePause`, acting on one
  state object.

Modules:

| file | module | contents |
|---|---|---|
| board.dfy | Board | board size, cells, directions, the reversal test, Manhattan distance |
| maps.dfy | Maps | the three generators as loops, their cell sets, the spawn table and its soundness |
| players.dfy | Players | the player record and `isValidPosition` (`ValidCell`, `IsValidPosition`) |
| ai.dfy | AI | the AI's filter pipeline as functions (`AIChoice`), and its loops as methods (`GetAIDirection`) |
| food.dfy | Food | the occupied set and the sampling loop (`Spawn`, `GenerateFood`) |
| tick.dfy | Tick | one tick as functions: the commit/plan phase, the move phase and the verdict |
| arena.dfy | Arena | the board invariant a tick keeps |
| keys.dfy | Keys | key bindings and the reversal filter |
| colors.dfy | Colors | the palette and colour assignment |
| setup.dfy | Setup | the players and food of a new game |
| stale.dfy | StaleFood | the move step as the game loop actually runs it (see Findings) |
| game.dfy | Game | class `GameBoard`: the component's state and its handlers |

Modelling choices:

- **Methods and their specifications.** Every loop of the source is a Dafny
  method. Each method's `ensures` ties its result to a specification
  function, for example `IsValidPosition` / `ValidCell`,
  `GetAIDirection` / `AIChoice`, `GenerateFood` / `Spawn` and
  `GameBoard.MoveSnakes` / `TickScene`. The lemmas are about those functions.
- **Players are values.** The source mutates shared player objects in place.
  Here they are values in a sequence. Each step of a tick is fed the output
  of the step before it, so a player's validity check sees the moves of the
  players before it in the same tick, as in the source.
- **Randomness is an input:**
  - the AI's `Math.random() < 0.3` is a boolean, and its index draws are one
    natural number taken modulo the number of candidates;
  - food placement takes a sequence of at least 100 on-board candidate
    cells;
  - a random colour takes one natural number, again taken modulo the number
    of free colours.
- **The death star.** The test `sqrt((x-9.5)² + (y-9.5)²) > 9` is written
  exactly over the integers as `(2x-19)² + (2y-19)² > 324`.
- **The lake.** Its `floor`/`ceil` interpolation is written exactly as
  integer floor divisions.

Three behaviours of the code that a reader might not expect:

- **Game over.** The game ends when the alive count is at most one and below
  the number of players. It is not compared with the count before the tick.
- **Moves are resolved one by one, in index order.** They are not
  simultaneous.
  - When two snakes head for the same free cell, the lower-indexed one takes
    it and the other dies (`Tick.ContestedCell`).
  - When a snake moves into the head of another, the mover dies and the other
    is untouched (`Tick.HeadSwap`). Dead snakes never block, so the other then
    moves freely. A head-on swap therefore kills only one snake.
- **An AI's decision takes effect one tick late.** The AI's planned direction
  is queued in `nextDirection` and committed at the start of the next tick.

## Model

| member | source | states |
|---|---|---|
| Board.NoDuplicates | components/game-board.tsx:247-248 | no item occurs twice |
| Board.Subsequence | components/game-board.tsx:420-423 | one list is another with items left out and the rest kept in order, the shape of a `filter` |
| Board.Reverse | components/game-board.tsx:414-417 | the opposite of a direction is its reverse, both ways round |
| Board.ReverseUnique | components/game-board.tsx:414-417 | a direction has exactly one reverse |
| Maps.GenerateDeathStarObstacles | components/game-board.tsx:143-158 | emits exactly the on-board cells outside the radius-9 circle about (9.5, 9.5), ordered by column then row |
| Maps.DeathStarWall | components/game-board.tsx:150-151 | the wall test; every wall cell lies outside the central block of columns and rows 4-15 |
| Maps.GenerateKingdomsObstacles | components/game-board.tsx:161-180 | emits exactly the on-board cells of rows or columns 9-10 outside the gaps, ordered by column then row |
| Maps.KingdomsWall | components/game-board.tsx:169-174 | the wall test; no wall cell lies on the crossing of the two central rows and columns |
| Maps.KingdomsWallShape | components/game-board.tsx:169-174 | a kingdoms wall cell lies on row/column 9 or 10 and at 2-6 or 13-17 along it |
| Maps.LakeLeft | components/game-board.tsx:202 | the floored left boundary is column 5 on rows 7-9 and column 6 on rows 10-12 |
| Maps.LakeRight | components/game-board.tsx:203 | the ceiled right boundary (exclusive) is column 15 on rows 7-9 and column 14 on rows 10-12 |
| Maps.GenerateLakeObstacles | components/game-board.tsx:183-212 | emits exactly the cells of rows 7-12 between the interpolated boundaries, ordered by row then column |
| Maps.LakeWater | components/game-board.tsx:199-209 | the water test; the lake lies within rows 7-12 and columns 5-14 |
| Maps.LakeShape | components/game-board.tsx:199-209 | the lake is columns 5-14 on rows 7-9 and columns 6-13 on rows 10-12, all on the board |
| Maps.SortedListIsUnique | components/game-board.tsx:143-212 | the generators are deterministic: two strictly ordered lists with the same cells are equal |
| Maps.MapObstacles | components/game-board.tsx:215-220 | the obstacle list of each map holds exactly its wall cells, all on the board, in generator order |
| Maps.InitialDirection | components/game-board.tsx:36 | every snake starts moving horizontally: players 0 and 1 right, 2 and 3 left |
| Maps.SpawnLayout | components/game-board.tsx:51-139 | every spawn has three cells |
| Maps.SpawnLayoutSound | components/game-board.tsx:36-139 | every spawn is three open cells in a line behind the head, in the initial direction, and the first move lands on an open cell |
| Maps.ClassicSpawnsSound | components/game-board.tsx:52-73 | the classic spawns are sound |
| Maps.DeathStarSpawnsSound | components/game-board.tsx:74-95 | the death-star spawns are sound |
| Maps.KingdomsSpawnsSound | components/game-board.tsx:96-117 | the kingdoms spawns are sound |
| Maps.LakeSpawnsSound | components/game-board.tsx:118-139 | the lake spawns are sound |
| Maps.SpawnLayoutsDisjoint | components/game-board.tsx:51-139 | on every map, different players' spawns share no cell |
| Players.IsValidPosition | components/game-board.tsx:377-406 | the loop with early returns answers exactly `ValidCell` |
| Players.ValidCell | components/game-board.tsx:377-405 | the validity test; a valid cell is on no segment of an alive snake other than the mover |
| Players.ValidCellMeaning | components/game-board.tsx:377-405 | a cell is valid iff it is on the board, not an obstacle, and not a segment of an alive snake, the mover's own last segment excepted; dead snakes never block |
| AI.NonReversing | components/game-board.tsx:414-417 | the candidates are the three directions other than the heading's reverse, the heading included |
| AI.KeepValid | components/game-board.tsx:420-423 | keeps exactly the candidates whose new head is valid, in their order |
| AI.ValidMoves | components/game-board.tsx:414-423 | the valid moves are exactly the non-reversing directions with a valid new head |
| AI.OtherAlive | components/game-board.tsx:430 | lists exactly the alive players other than the mover, in index order |
| AI.FirstMin | components/game-board.tsx:442-445 | the strict `<` test keeps the first minimum |
| AI.NearestOpponent | components/game-board.tsx:435-446 | none iff no other player is alive; otherwise an alive opponent at least as close as every other and strictly closer than every lower-indexed one, so ties go to the lowest index |
| AI.NearestFood | components/game-board.tsx:472-481 | none iff there is no food; otherwise the first item among the closest |
| AI.Approaching | components/game-board.tsx:459-463 | keeps exactly the moves that bring the head strictly under the bound |
| AI.ClosestOpponent | components/game-board.tsx:435-446 | the loop finds the opponent and distance of `NearestOpponent`'s rule |
| AI.ClosestFood | components/game-board.tsx:472-481 | the loop finds the first closest food item and its distance |
| AI.Predicted | components/game-board.tsx:453-456 | the predicted cell is one step from the opponent's head |
| AI.InterceptMoves | components/game-board.tsx:448-467 | the intercept candidates are valid moves, and there are none unless the nearest opponent is within range |
| AI.FoodMoves | components/game-board.tsx:472-494 | the food candidates are valid moves, and there are none without food |
| AI.AIChoice | components/game-board.tsx:409-498 | a dead AI or one without a valid move keeps its direction; otherwise it picks an intercept move if there is one (aggressive only), else a move toward food, else any valid move |
| AI.InterceptDirections | components/game-board.tsx:448-467 | computes the intercept candidates |
| AI.FoodDirections | components/game-board.tsx:483-494 | computes the candidates toward the food |
| AI.GetAIDirection | components/game-board.tsx:409-498 | returns `AIChoice` for the given draws |
| AI.AIChoiceNeverReverses | components/game-board.tsx:409-498 | the AI never returns the reverse of the current direction |
| AI.AIChoiceIsValidMove | components/game-board.tsx:420-497 | with a valid move available, the AI picks one of them |
| AI.AIChoiceValidIff | components/game-board.tsx:420-427 | the AI's new head is valid iff some valid move exists; with none, the direction is kept |
| AI.AIChoiceApproaches | components/game-board.tsx:429-494 | an intercept ends strictly closer to the predicted opponent cell than `minDistance`, and a food move strictly closer to the nearest food |
| AI.FirstMinUnique | components/game-board.tsx:442-445 | the first minimum is unique |
| Food.Spawn | components/game-board.tsx:319-332 | places at most `count` items |
| Food.SpawnSound | components/game-board.tsx:319-332 | every placed item was drawn within the first 100 attempts, avoids the occupied cells, and no two are alike |
| Food.SpawnOnBoard | components/game-board.tsx:322-325 | every placed item is on the board |
| Food.OccupiedMeaning | components/game-board.tsx:298-317 | the occupied set `Occupied` is exactly the segments of every snake, alive or dead, the food items and the obstacles |
| Food.MarkOccupied | components/game-board.tsx:298-317 | the marked cells are all snake segments, food items and obstacles |
| Food.Sample | components/game-board.tsx:319-332 | the loop places `Spawn`'s items, in at most 100 attempts, using all 100 when it falls short |
| Food.GenerateFood | components/game-board.tsx:297-335 | places `Spawn`'s items around the occupied cells, in at most 100 attempts |
| Tick.PlanStep | components/game-board.tsx:506-517 | commits an alive player's queued direction, changes no other player and no body, and leaves a human's queue alone |
| Tick.PlanFrom | components/game-board.tsx:506-517 | the first loop keeps every body, score and status |
| Tick.PlanStepCommits | components/game-board.tsx:506-517 | a commit never reverses the heading and leaves no reversal queued |
| Tick.PlanFromCommits | components/game-board.tsx:506-517 | after the first loop no snake has turned around or queued a reversal |
| Tick.FindIndex | components/game-board.tsx:534 | the index of the first food item at the cell, or none exactly when there is none |
| Tick.RemoveAt | components/game-board.tsx:538 | drops exactly the item at the index |
| Tick.RemoveAtContents | components/game-board.tsx:538 | dropping an item removes one copy of it and nothing else |
| Tick.MoveStep | components/game-board.tsx:519-555 | a player's move changes that player only and never its kind, colour or directions |
| Tick.MoveStepOutcome | components/game-board.tsx:519-555 | dead players are skipped; an invalid head kills and keeps the body; otherwise the new head is `snake[0]`; eating adds one segment and `FOOD_VALUE`, not eating keeps length, score and food |
| Tick.MoveFrom | components/game-board.tsx:519-555 | the move loop keeps the player count |
| Tick.TickScene | components/game-board.tsx:501-555 | a tick keeps the player count |
| Tick.MoveFromKeepsDirections | components/game-board.tsx:519-555 | the move loop changes no direction |
| Tick.TickNeverReverses | components/game-board.tsx:501-572 | a tick never reverses a snake and leaves no reversal queued |
| Tick.AdvancesTransitive | components/game-board.tsx:501-572 | the "only grows" relation composes |
| Tick.PlanFromAdvances | components/game-board.tsx:506-517 | the first loop only grows |
| Tick.MoveFromAdvances | components/game-board.tsx:519-555 | the move loop only grows |
| Tick.TickAdvances | components/game-board.tsx:501-572 | in a tick dead players stay as they are, and no score or length shrinks |
| Tick.ContestedCell | components/game-board.tsx:519-531 | when two snakes head for one free cell, the first to move takes it and the second dies |
| Tick.HeadSwap | components/game-board.tsx:519-531 | moving into another snake's head kills the mover and leaves the other untouched |
| Tick.AliveCount | components/game-board.tsx:558 | at most the number of players |
| Tick.FirstAlive | components/game-board.tsx:561 | the first alive index, or none exactly when nobody is alive |
| Tick.AliveCountZero | components/game-board.tsx:558 | the count is zero iff nobody is alive |
| Tick.AliveCountAll | components/game-board.tsx:558 | the count is the number of players iff everybody is alive |
| Tick.AliveCountOne | components/game-board.tsx:558-562 | with one alive, `findIndex` finds the only survivor |
| Tick.Verdict | components/game-board.tsx:558-568 | the game ends only when someone is dead, and a winner is alive |
| Tick.VerdictMeaning | components/game-board.tsx:558-568 | over iff at most one is alive and someone died; the winner is the sole survivor, and none when all died |
| Arena.UnoccupiedIsOffSnakes | components/game-board.tsx:298-317 | an unmarked cell is off every snake, the food and the obstacles |
| Arena.ValidCellFacts | components/game-board.tsx:377-405 | a valid cell is on the board, not an obstacle, and off every other alive snake and the mover's body but its tail |
| Arena.DieKeepsArena | components/game-board.tsx:528-531 | a death keeps the board invariant |
| Arena.SlideKeepsArena | components/game-board.tsx:550-553 | a move without a meal keeps the board invariant |
| Arena.GrowKeepsArena | components/game-board.tsx:534-548 | a meal, with its removal and respawn, keeps the board invariant |
| Arena.SpawnedFoodOk | components/game-board.tsx:297-334 | new food is on the board, off obstacles, snakes and food, and has no repeats |
| Arena.MoveStepKeepsArena | components/game-board.tsx:519-555 | every move keeps the board invariant |
| Arena.MoveFromKeepsArena | components/game-board.tsx:519-555 | the move loop keeps the board invariant |
| Arena.SameBodiesKeepArena | components/game-board.tsx:506-517 | changing only directions keeps the board invariant |
| Arena.TickKeepsArena | components/game-board.tsx:501-572 | a tick keeps the board invariant |
| Keys.LowerChar | components/game-board.tsx:592 | no capital letter is left, a capital becomes a small letter, and any other character is kept |
| Keys.Lower | components/game-board.tsx:601-608 | same length, no capital letter left, and every non-capital kept |
| Keys.PlayerControls | components/game-board.tsx:39-44 | the four control sets: arrows, WASD, IJKL and TFGH |
| Keys.KeyDirection | components/game-board.tsx:599-611 | a direction the filter selects never reverses the committed one |
| Keys.KeyDirectionExact | components/game-board.tsx:599-611 | with distinct keys, a key selects `d` iff it is `d`'s key in any case and `d` does not reverse the heading |
| Keys.UnboundKeyIgnored | components/game-board.tsx:609-611 | an unbound key selects nothing |
| Keys.PlayerControlsDistinct | components/game-board.tsx:39-44 | each control set has four distinct keys |
| Keys.ControlSetsDisjoint | components/game-board.tsx:39-44 | no two players share a key |
| Colors.PlayerColors | components/game-board.tsx:17 | the six-colour palette, in its order |
| Colors.Unused | components/game-board.tsx:247 | holds exactly the palette entries not yet used |
| Colors.UnusedInOrder | components/game-board.tsx:247 | the filter keeps the palette order, so a draw selects by that order |
| Colors.GetRandomColor | components/game-board.tsx:246-250 | a palette entry, unused while one is free, the first entry when none is |
| Colors.EveryFreeColorReachable | components/game-board.tsx:249 | every free colour can be drawn |
| Colors.ChooseColor | components/game-board.tsx:270-275 | a fixed colour is kept; a random one is a palette entry, unused while one is free |
| Colors.AssignColors | components/game-board.tsx:266-279 | one colour per player, chosen from no colour used |
| Colors.AssignFrom | components/game-board.tsx:269-279 | one colour per player |
| Colors.CoveringIsLonger | components/game-board.tsx:247-248 | a list covering a list without repeats is at least as long |
| Colors.SomeColorFree | components/game-board.tsx:247-248 | with fewer than six used, some colour is free |
| Colors.AssignFromSound | components/game-board.tsx:266-279 | a fixed choice is kept; a random one is from the palette and, while the palette lasts, differs from all earlier ones |
| Colors.AssignColorsSound | components/game-board.tsx:266-279 | up to six randomly coloured players get different colours |
| Setup.SpawnPlayer | components/game-board.tsx:279-288 | a new player has the given type and colour, is alive with score 0, three segments and no turn queued |
| Setup.InitialPlayers | components/game-board.tsx:269-290 | one player per type; colour choices past the last player are never read |
| Setup.InitializePlayers | components/game-board.tsx:266-294 | builds `InitialPlayers` from a colour list at least as long as the players, reading only its first entries |
| Setup.MapPlayers | components/game-board.tsx:268-289 | the `map` with its `usedColors` pushes builds `InitialPlayers` |
| Setup.InitialFood | components/game-board.tsx:293 | at most one item per player |
| Setup.SpawnBodyOk | components/game-board.tsx:51-139 | every spawn body is on open cells without repeats |
| Setup.StraightLineDistinct | components/game-board.tsx:51-139 | three cells a step apart in one direction are distinct |
| Setup.InitialArenaOk | components/game-board.tsx:266-294 | a new game, with food placed around the new map's obstacles, satisfies the board invariant and has no reversal queued |
| Setup.KingdomsSpawnRows | components/game-board.tsx:96-117 | the kingdoms spawns lie on rows 4 and 15 |
| Setup.StaleObstaclesFoodOnWall | components/game-board.tsx:338-341 | with the previous (empty) obstacles marked, the first kingdoms food can fall on a wall |
| StaleFood.DropIndex | components/game-board.tsx:538 | one item shorter when the index is in range and unchanged past the end; items before the index stay put and those after it move down one |
| StaleFood.MoveStepAsWritten | components/game-board.tsx:519-555 | the player count is kept |
| StaleFood.PhantomMeal | components/game-board.tsx:534-548 | a head on food already eaten since the loop started scores and grows in the game loop, not in `MoveStep` |
| StaleFood.MissedMeal | components/game-board.tsx:534-553 | a head on food placed since the loop started neither scores nor removes it in the game loop, unlike `MoveStep` |
| Game.PressKey | components/game-board.tsx:594-611 | a key press changes only the queued direction, and only of an alive human |
| Game.PressKeySafe | components/game-board.tsx:594-617 | a key press changes only an alive human's queued direction and never queues a reversal |
| Game.PressKeyExact | components/game-board.tsx:599-611 | the key bound to `d` queues `d` unless it reverses the heading |
| Game.PressKeysKeepBoard | components/game-board.tsx:594-617 | key presses keep the board invariant and queue no reversal |
| Game.NewGame | components/game-board.tsx:338-341 | the map's obstacles, `InitialPlayers`, and food around the new obstacles, satisfying the board invariant |
| Game.NewGameAsWritten | components/game-board.tsx:338-341 | as `NewGame`, with the food placed around the obstacles still in the state |
| Game.GameBoard.constructor | components/game-board.tsx:253-261 | the initial state: no game, speed 150, classic map, no obstacles |
| Game.GameBoard.StartGame | components/game-board.tsx:338-351 | sets speed, map, obstacles, players and initial food, starts a game, and keeps `Valid` |
| Game.GameBoard.StartGameAsWritten | components/game-board.tsx:338-351 | as `StartGame` but with the food placed around the previous obstacles |
| Game.GameBoard.ResetGame | components/game-board.tsx:354-365 | empties the board and flags, keeping map, obstacles and speed |
| Game.GameBoard.TogglePause | components/game-board.tsx:368-374 | flips the pause flag only |
| Game.GameBoard.HandleKeyDown | components/game-board.tsx:589-619 | ignored unless a game runs; otherwise every player gets `PressKey`; keeps `Valid` |
| Game.GameBoard.MoveSnakes | components/game-board.tsx:501-572 | the tick is `TickScene`, the game-over flag and winner follow `Verdict`, and `Valid` is kept |
| Game.PlanDirections | components/game-board.tsx:506-517 | the first `forEach` computes `PlanFrom` |
| Game.MoveAll | components/game-board.tsx:519-555 | the second `forEach` computes `MoveFrom` |
| Game.MoveOne | components/game-board.tsx:519-555 | one iteration of the second `forEach` computes `MoveStep` |

## Left out

- React state, effects and updater batching: each handler applies its
  updates when it returns. Captured values change the outcome in three
  places: two are reported under Findings (the obstacles `startGame` passes
  to `generateFood`, and the food list `moveSnakes` tests meals against), and
  the third, the food list the AI reads, is the `AI.GetAIDirection` line
  below.
- The timers (`setInterval`, `startGameLoop`, `clearInterval`) and the pause
  wiring: a tick is the synchronous `GameBoard.MoveSnakes`. The interval
  skips a tick while paused, and the model's precondition expresses that.
- Toasts, rendering, `colorClass` and the `window` listener registration.
  These have no engine logic.
- `Math.random`, which becomes explicit parameters. `Math.floor(Math.random() * n)`
  becomes a natural number taken modulo `n`.
- `Keys.Lower` lower-cases ASCII letters only; JavaScript's `toLowerCase`
  covers all of Unicode.
- AI.GetAIDirection: inside the game loop the source's AI
  reads the food list captured when the loop started. The model gives it the
  food on the board.
- The `playerCount` field of the settings: `startGame` never reads it.
- Settings for more than four players: the spawn table has four entries, so
  the source would fail there.
- Setup.InitialPlayers, Setup.InitializePlayers, Game.NewGame,
  Game.NewGameAsWritten, Game.GameBoard.StartGame and
  Game.GameBoard.StartGameAsWritten: a colour list shorter than the player
  list is not modelled. There the source reads past the end and gives that
  player the colour `undefined`, a value outside the palette.
- The caller of `startGame`. Its only visible caller is
  `<PlayerSelection onStart={startGame} />` (components/game-board.tsx:642).
  `player-selection.tsx` declares `onStart` as taking a bare `PlayerType[]`
  (components/player-selection.tsx:12) and calls `onStart(playerTypes)`
  (components/player-selection.tsx:66). With that wiring
  `settings.playerTypes` is undefined and `initializePlayers` throws at
  `playerTypes.map` (components/game-board.tsx:269). The model's `Settings`
  follows the `GameSettings` interface (components/game-board.tsx:226-232),
  which no visible caller supplies.
- `score-board.tsx`, `game-over-modal.tsx`, `game-controls.tsx`,
  `snake.tsx`, `food.tsx`, `audio-player.tsx` and the app files are not part
  of this model. They hold presentation and audio only. From
  `player-selection.tsx` only the `onStart` wiring described above matters
  to the engine.

## Findings

| source | as written | input that shows it | evidently intended | confidence | as-written member | corrected member |
|---|---|---|---|---|---|---|
| components/game-board.tsx:338-341 | `startGame` queues `setObstacles` and then calls `initializePlayers`, whose `generateFood` marks the `obstacles` of the current render, i.e. those of the previous game | the first game after loading, on the kingdoms map, with first food draw (9, 3): no obstacles are marked and the item lands on a wall cell, where no snake can ever reach it | the first food avoids the new map's obstacles | not executed | Game.GameBoard.StartGameAsWritten, Setup.StaleObstaclesFoodOnWall | Game.GameBoard.StartGame, Setup.InitialArenaOk |
| components/game-board.tsx:534-539 | the interval keeps the `moveSnakes` of the render that started it, so it tests the head against the food list of that moment, and applies the found index to the live list | food item A at index 0 is eaten, so the live list becomes [B, C]; a later head on A's empty cell scores, grows and deletes B; a head on the new item C neither scores nor removes it | meals are tested against the food on the board | not executed | StaleFood.MoveStepAsWritten, StaleFood.PhantomMeal, StaleFood.MissedMeal | Tick.MoveStep, Tick.MoveStepOutcome, Arena.MoveStepKeepsArena |
