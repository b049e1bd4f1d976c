/**
  * The state of the `GameBoard` component as one object, and the handlers
  * that change it: `startGame`, `resetGame`, `togglePause`, `handleKeyDown`
  * and `moveSnakes`. Each handler's updates, which the source queues with
  * `set...` calls, are applied here when the handler returns.
  */
module Game {
  import opened Board
  import opened Maps
  import opened Players
  import opened Food
  import opened AI
  import opened Tick
  import opened Arena
  import opened Keys
  import opened Colors
  import opened Setup

  /** What the player-selection screen hands to `startGame`. */
  datatype Settings = Settings(playerTypes: seq<Control>, gameSpeed: nat, mapType: MapType, playerColors: seq<ColorOption>)

  /** A key press as one player sees it: alive humans take the filtered direction, everyone else ignores it. */
  function PressKey(p: Player, index: nat, key: string): (q: Player)
    requires index < |PlayerControls|
    ensures q == p.(nextDirection := q.nextDirection)
    ensures q != p ==> p.kind == Human && p.alive
  {
    if p.kind != Human || !p.alive then p
    else match KeyDirection(key, PlayerControls[index], p.direction)
      case None => p
      case Some(d) => p.(nextDirection := d)
  }

  /**
    * A key press changes nothing but the queued direction of alive humans, and
    * never queues a reversal of the committed direction.
    */
  lemma PressKeySafe(p: Player, index: nat, key: string)
    requires index < |PlayerControls|
    ensures var q := PressKey(p, index, key);
      && q == p.(nextDirection := q.nextDirection)
      && (q.nextDirection != p.nextDirection ==> p.kind == Human && p.alive)
      && (!IsReverse(p.nextDirection, p.direction) ==> !IsReverse(q.nextDirection, q.direction))
  {
  }

  /** Pressing the key bound to `d` queues `d` for an alive human unless it reverses its heading. */
  lemma PressKeyExact(p: Player, index: nat, key: string, d: Dir)
    requires index < |PlayerControls| && p.kind == Human && p.alive
    requires Distinct(PlayerControls[index])
    ensures Lower(key) == Lower(KeyFor(PlayerControls[index], d)) ==>
      PressKey(p, index, key).nextDirection == (if IsReverse(d, p.direction) then p.nextDirection else d)
  {
    var c := PlayerControls[index];
    KeyDirectionExact(key, c, p.direction, Up);
    KeyDirectionExact(key, c, p.direction, Down);
    KeyDirectionExact(key, c, p.direction, Left);
    KeyDirectionExact(key, c, p.direction, Right);
  }

  /**
    * The values `startGame` sets up: the map's obstacles, the players of
    * `initializePlayers` and the first food, placed around those obstacles.
    */
  method NewGame(settings: Settings, picks: seq<nat>, food: seq<Pos>, draws: Draws)
    returns (walls: seq<Pos>, ps: seq<Player>, newFood: seq<Pos>)
    requires |settings.playerTypes| <= MaxPlayers && |settings.playerColors| >= |settings.playerTypes|
    requires |picks| == |settings.playerTypes|
    ensures forall p :: p in walls <==> MapWall(settings.mapType, p)
    ensures ps == InitialPlayers(settings.playerTypes, settings.mapType, settings.playerColors, picks)
    ensures newFood == Spawn(|ps|, Occupied(ps, food, walls), draws, 0)
    ensures food == [] ==> newFood == InitialFood(ps, walls, draws) && ArenaOk(ps, newFood, walls)
    ensures NoPendingReversal(ps)
  {
    walls := MapObstacles(settings.mapType);
    ps := InitializePlayers(settings.playerTypes, settings.mapType, settings.playerColors, picks);
    var attempts;
    newFood, attempts := GenerateFood(|settings.playerTypes|, ps, food, walls, draws);
    InitialArenaOk(settings.playerTypes, settings.mapType, settings.playerColors, picks, walls, draws);
  }

  /** `NewGame` with the food placed around `stale`, the obstacles still in the state. */
  method NewGameAsWritten(settings: Settings, picks: seq<nat>, food: seq<Pos>, stale: seq<Pos>, draws: Draws)
    returns (walls: seq<Pos>, ps: seq<Player>, newFood: seq<Pos>)
    requires |settings.playerTypes| <= MaxPlayers && |settings.playerColors| >= |settings.playerTypes|
    requires |picks| == |settings.playerTypes|
    ensures forall p :: p in walls <==> MapWall(settings.mapType, p)
    ensures ps == InitialPlayers(settings.playerTypes, settings.mapType, settings.playerColors, picks)
    ensures newFood == Spawn(|ps|, Occupied(ps, food, stale), draws, 0)
  {
    walls := MapObstacles(settings.mapType);
    ps := InitializePlayers(settings.playerTypes, settings.mapType, settings.playerColors, picks);
    var attempts;
    newFood, attempts := GenerateFood(|settings.playerTypes|, ps, food, stale, draws);
  }

  /**
    * The component's invariant: the obstacles are the map's, the board
    * invariant holds, no reversal is queued, the selection screen sees an
    * empty board, and a winner exists only once the game is over.
    */
  ghost predicate StateOk(players: seq<Player>, food: seq<Pos>, obstacles: seq<Pos>, mapType: MapType,
                          gameStarted: bool, gamePaused: bool, gameOver: bool, winner: Option<nat>)
  {
    && |players| <= MaxPlayers
    && (forall p {:trigger MapWall(mapType, p)} :: p in obstacles <==> MapWall(mapType, p))
    && ArenaOk(players, food, obstacles)
    && NoPendingReversal(players)
    && (!gameStarted ==> players == [] && food == [] && !gamePaused && !gameOver)
    && (!gameOver ==> winner == None)
  }

  class GameBoard {
    var players: seq<Player>
    var food: seq<Pos>
    var gameStarted: bool
    var gamePaused: bool
    var gameOver: bool
    var winner: Option<nat>
    var speed: nat
    var mapType: MapType
    var obstacles: seq<Pos>

    ghost predicate Valid()
      reads this
    {
      StateOk(players, food, obstacles, mapType, gameStarted, gamePaused, gameOver, winner)
    }

    /** The component's initial state. */
    constructor ()
      ensures Valid()
      ensures players == [] && food == [] && !gameStarted && !gamePaused && !gameOver && winner == None
      ensures speed == 150 && mapType == Classic && obstacles == []
    {
      players := [];
      food := [];
      gameStarted := false;
      gamePaused := false;
      gameOver := false;
      winner := None;
      speed := 150;
      mapType := Classic;
      obstacles := [];
    }

    /**
      * `startGame` with the first food placed around the new map's obstacles;
      * `picks` are the colour draws and `draws` the food draws.
      */
    method StartGame(settings: Settings, picks: seq<nat>, draws: Draws)
      requires Valid() && !gameStarted
      requires |settings.playerTypes| <= MaxPlayers && |settings.playerColors| >= |settings.playerTypes|
      requires |picks| == |settings.playerTypes|
      modifies this
      ensures Valid()
      ensures speed == settings.gameSpeed && mapType == settings.mapType
      ensures players == InitialPlayers(settings.playerTypes, settings.mapType, settings.playerColors, picks)
      ensures food == InitialFood(players, obstacles, draws)
      ensures gameStarted && !gamePaused && !gameOver && winner == None
    {
      var walls, ps, newFood := NewGame(settings, picks, food, draws);
      assert food + newFood == newFood;
      assert StateOk(ps, newFood, walls, settings.mapType, true, gamePaused, false, None);
      speed, mapType, obstacles := settings.gameSpeed, settings.mapType, walls;
      players, food := ps, food + newFood;
      gameStarted, gameOver, winner := true, false, None;
    }

    /**
      * `startGame` as the source runs it: `setObstacles` has not taken effect
      * when `generateFood` marks the occupied cells, so the obstacles of the
      * previous game (none on the first) are marked instead of the new map's.
      */
    method StartGameAsWritten(settings: Settings, picks: seq<nat>, draws: Draws)
      requires Valid() && !gameStarted
      requires |settings.playerTypes| <= MaxPlayers && |settings.playerColors| >= |settings.playerTypes|
      requires |picks| == |settings.playerTypes|
      modifies this
      ensures speed == settings.gameSpeed && mapType == settings.mapType
      ensures forall p :: p in obstacles <==> MapWall(mapType, p)
      ensures players == InitialPlayers(settings.playerTypes, settings.mapType, settings.playerColors, picks)
      ensures food == InitialFood(players, old(obstacles), draws)
      ensures gameStarted && !gamePaused && !gameOver && winner == None
    {
      var walls, ps, newFood := NewGameAsWritten(settings, picks, food, obstacles, draws);
      speed, mapType, obstacles := settings.gameSpeed, settings.mapType, walls;
      players, food := ps, food + newFood;
      gameStarted, gameOver, winner := true, false, None;
    }

    /** `resetGame`: back to the selection screen; map, obstacles and speed stay. */
    method ResetGame()
      requires Valid()
      modifies this
      ensures Valid()
      ensures players == [] && food == [] && !gameStarted && !gamePaused && !gameOver && winner == None
      ensures speed == old(speed) && mapType == old(mapType) && obstacles == old(obstacles)
    {
      players := [];
      food := [];
      gameStarted := false;
      gamePaused := false;
      gameOver := false;
      winner := None;
    }

    /** `togglePause`, offered by the controls of a running game. */
    method TogglePause()
      requires Valid() && gameStarted
      modifies this
      ensures Valid()
      ensures gamePaused == !old(gamePaused)
      ensures players == old(players) && food == old(food) && gameStarted && gameOver == old(gameOver)
      ensures winner == old(winner) && speed == old(speed) && mapType == old(mapType) && obstacles == old(obstacles)
    {
      gamePaused := !gamePaused;
    }

    /** `handleKeyDown`: ignored unless a game runs; otherwise every player sees the key. */
    method HandleKeyDown(key: string)
      requires Valid()
      modifies this
      ensures Valid()
      ensures !old(gameStarted) || old(gamePaused) || old(gameOver) ==> players == old(players)
      ensures old(gameStarted) && !old(gamePaused) && !old(gameOver) ==>
        |players| == |old(players)| && forall k :: 0 <= k < |players| ==> players[k] == PressKey(old(players)[k], k, key)
      ensures food == old(food) && gameStarted == old(gameStarted) && gamePaused == old(gamePaused)
      ensures gameOver == old(gameOver) && winner == old(winner) && obstacles == old(obstacles) && mapType == old(mapType)
      ensures speed == old(speed)
    {
      if !gameStarted || gamePaused || gameOver {
        return;
      }
      var ps := players;
      for index := 0 to |ps|
        invariant |ps| == |players|
        invariant forall k :: 0 <= k < index ==> ps[k] == PressKey(players[k], k, key)
        invariant forall k :: index <= k < |ps| ==> ps[k] == players[k]
      {
        var player := ps[index];
        if player.kind != Human || !player.alive {
          continue;
        }
        match KeyDirection(key, PlayerControls[index], player.direction)
        case None =>
        case Some(newDirection) =>
          ps := ps[index := player.(nextDirection := newDirection)];
      }
      PressKeysKeepBoard(players, ps, key, food, obstacles);
      players := ps;
    }

    /**
      * `moveSnakes`: commit and plan in index order, move in index order each
      * player seeing the moves before it, then check for the end of the game.
      * `r` holds each player's random draws.
      */
    method MoveSnakes(r: seq<Draw>)
      requires Valid() && gameStarted && !gamePaused && !gameOver && |r| == |players|
      modifies this
      ensures Valid()
      ensures var t := TickScene(old(players), old(food), obstacles, r); players == t.players && food == t.food
      ensures Verdict(players).Continue? ==> !gameOver && winner == None
      ensures Verdict(players).Over? ==> gameOver && winner == Verdict(players).winner
      ensures gameStarted && !gamePaused && obstacles == old(obstacles) && mapType == old(mapType) && speed == old(speed)
    {
      var prevPlayers, currentFood, mapObstacles := players, food, obstacles;
      TickKeepsArena(prevPlayers, currentFood, mapObstacles, r);
      TickNeverReverses(prevPlayers, currentFood, mapObstacles, r);
      var planned := PlanDirections(prevPlayers, currentFood, mapObstacles, r);
      var newPlayers, newFood := MoveAll(planned, currentFood, mapObstacles, r);
      players := newPlayers;
      food := newFood;
      var alive := AliveCount(newPlayers);
      if alive <= 1 && alive < |newPlayers| {
        if alive == 1 {
          winner := FirstAlive(newPlayers);
        }
        gameOver := true;
      }
    }
  }

  /** The first `forEach` of `moveSnakes`: commit, then plan for the AI, in index order. */
  method PlanDirections(ps: seq<Player>, food: seq<Pos>, obstacles: seq<Pos>, r: seq<Draw>) returns (qs: seq<Player>)
    requires |r| == |ps|
    ensures qs == PlanFrom(ps, food, obstacles, 0, r)
  {
    qs := ps;
    for index := 0 to |qs|
      invariant |qs| == |ps|
      invariant PlanFrom(qs, food, obstacles, index, r) == PlanFrom(ps, food, obstacles, 0, r)
    {
      ghost var before := qs;
      var player := qs[index];
      if !player.alive {
        continue;
      }
      qs := qs[index := player.(direction := player.nextDirection)];
      if player.kind == Ai {
        var d := GetAIDirection(qs, food, obstacles, index, r[index].aggressive, r[index].pick);
        qs := qs[index := qs[index].(nextDirection := d)];
      }
      assert qs == PlanStep(before, food, obstacles, index, r);
    }
  }

  /** The second `forEach` of `moveSnakes`: every player moves in index order, seeing the moves before it. */
  method MoveAll(ps: seq<Player>, food: seq<Pos>, obstacles: seq<Pos>, r: seq<Draw>) returns (qs: seq<Player>, fd: seq<Pos>)
    requires |r| == |ps|
    ensures Scene(qs, fd) == MoveFrom(Scene(ps, food), obstacles, 0, r)
  {
    qs, fd := ps, food;
    for playerIndex := 0 to |qs|
      invariant |qs| == |ps|
      invariant MoveFrom(Scene(qs, fd), obstacles, playerIndex, r) == MoveFrom(Scene(ps, food), obstacles, 0, r)
    {
      ghost var before := Scene(qs, fd);
      qs, fd := MoveOne(qs, fd, obstacles, playerIndex, r[playerIndex].food);
      assert Scene(qs, fd) == MoveStep(before, obstacles, playerIndex, r[playerIndex].food);
    }
  }

  /** The body of the movement `forEach` for one player. */
  method MoveOne(ps: seq<Player>, fd: seq<Pos>, obstacles: seq<Pos>, playerIndex: nat, draws: Draws)
    returns (qs: seq<Player>, gd: seq<Pos>)
    requires playerIndex < |ps|
    ensures Scene(qs, gd) == MoveStep(Scene(ps, fd), obstacles, playerIndex, draws)
  {
    qs, gd := ps, fd;
    var player := ps[playerIndex];
    if !player.alive {
      return;
    }
    var head := player.snake[0];
    var newHead := Pos(head.x + Dx(player.direction), head.y + Dy(player.direction));
    var ok := IsValidPosition(ps, obstacles, newHead, playerIndex);
    if !ok {
      qs := ps[playerIndex := player.(alive := false)];
      return;
    }
    match FindIndex(fd, newHead)
    case Some(foodIndex) =>
      var grown := ps[playerIndex := player.(snake := [newHead] + player.snake, score := player.score + FoodValue)];
      var spawned, _ := GenerateFood(1, grown, fd, obstacles, draws);
      qs := grown;
      gd := RemoveAt(fd, foodIndex) + spawned;
    case None =>
      qs := ps[playerIndex := player.(snake := [newHead] + player.snake[..|player.snake| - 1])];
  }

  /** A key press keeps the board invariant and the absence of queued reversals. */
  lemma PressKeysKeepBoard(ps: seq<Player>, qs: seq<Player>, key: string, food: seq<Pos>, obstacles: seq<Pos>)
    requires |ps| <= |PlayerControls| && |qs| == |ps| && forall k :: 0 <= k < |ps| ==> qs[k] == PressKey(ps[k], k, key)
    requires ArenaOk(ps, food, obstacles) && NoPendingReversal(ps)
    ensures ArenaOk(qs, food, obstacles) && NoPendingReversal(qs)
  {
    forall k | 0 <= k < |ps| ensures !IsReverse(qs[k].nextDirection, qs[k].direction) {
      PressKeySafe(ps[k], k, key);
    }
    SameBodiesKeepArena(ps, qs, food, obstacles);
  }
}
