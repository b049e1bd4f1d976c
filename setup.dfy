/**
  * What `startGame` puts on the board: the players `initializePlayers` builds
  * from the spawn table and the colour choices, and the first food items.
  */
module Setup {
  import opened Board
  import opened Maps
  import opened Players
  import opened Food
  import opened Colors
  import opened Tick
  import opened Arena

  /** The spawn table, the initial directions and the control table have four entries. */
  const MaxPlayers: nat := 4

  /** The record `initializePlayers` builds for player `i`. */
  function SpawnPlayer(kind: Control, m: MapType, i: nat, color: string): (p: Player)
    requires i < MaxPlayers
    ensures p.kind == kind && p.color == color && p.alive && p.score == 0
    ensures |p.snake| == 3 && p.nextDirection == p.direction
  {
    Player(kind, SpawnLayout(m, i), InitialDirection(i), InitialDirection(i), 0, true, color)
  }

  /** The players of a new game, one per type; colour choices past the last player are never read. */
  function InitialPlayers(types: seq<Control>, m: MapType, choices: seq<ColorOption>, picks: seq<nat>): (ps: seq<Player>)
    requires |types| <= MaxPlayers && |choices| >= |types| && |picks| == |types|
    ensures |ps| == |types|
  {
    var colors := AssignColors(choices[..|types|], picks);
    seq(|types|, i requires 0 <= i < |types| => SpawnPlayer(types[i], m, i, colors[i]))
  }

  /** `initializePlayers`: only the first `|types|` colour choices are read. */
  method InitializePlayers(types: seq<Control>, m: MapType, choices: seq<ColorOption>, picks: seq<nat>)
    returns (ps: seq<Player>)
    requires |types| <= MaxPlayers && |choices| >= |types| && |picks| == |types|
    ensures ps == InitialPlayers(types, m, choices, picks)
  {
    ps := MapPlayers(types, m, choices[..|types|], picks);
    assert choices[..|types|][..|types|] == choices[..|types|];
  }

  /** The `playerTypes.map` of `initializePlayers`, pushing each colour on `usedColors`. */
  method MapPlayers(types: seq<Control>, m: MapType, choices: seq<ColorOption>, picks: seq<nat>)
    returns (ps: seq<Player>)
    requires |types| <= MaxPlayers && |choices| == |types| && |picks| == |types|
    ensures ps == InitialPlayers(types, m, choices, picks)
  {
    var usedColors: seq<string> := [];
    ps := [];
    for index := 0 to |types|
      invariant |ps| == index && |usedColors| == index
      invariant usedColors + AssignFrom(choices[index..], picks[index..], usedColors) == AssignColors(choices, picks)
      invariant forall k :: 0 <= k < index ==> ps[k] == SpawnPlayer(types[k], m, k, usedColors[k])
    {
      var color: string;
      if choices[index].RandomColor? {
        color := GetRandomColor(usedColors, picks[index]);
      } else {
        color := choices[index].name;
      }
      AssignStep(choices, picks, usedColors, index, color, AssignColors(choices, picks));
      usedColors := usedColors + [color];
      ps := ps + [SpawnPlayer(types[index], m, index, color)];
    }
    InitialPlayersAre(types, m, choices, picks, ps, usedColors);
  }

  /** The loop's invariant after pushing player `index`'s colour. */
  lemma AssignStep(choices: seq<ColorOption>, picks: seq<nat>, used: seq<string>, index: nat, color: string,
                   target: seq<string>)
    requires |picks| == |choices| && index < |choices|
    requires color == ChooseColor(choices[index], used, picks[index])
    requires used + AssignFrom(choices[index..], picks[index..], used) == target
    ensures (used + [color]) + AssignFrom(choices[index + 1..], picks[index + 1..], used + [color]) == target
  {
    AssignFromUnfold(choices, picks, used, index);
    var rest := AssignFrom(choices[index + 1..], picks[index + 1..], used + [color]);
    assert used + ([color] + rest) == (used + [color]) + rest;
  }

  /** The players built one by one are `InitialPlayers`. */
  lemma InitialPlayersAre(types: seq<Control>, m: MapType, choices: seq<ColorOption>, picks: seq<nat>,
                          ps: seq<Player>, colors: seq<string>)
    requires |types| <= MaxPlayers && |choices| == |types| && |picks| == |types|
    requires |ps| == |types| && colors + AssignFrom(choices[|types|..], picks[|types|..], colors) == AssignColors(choices, picks)
    requires |colors| == |types| && forall k :: 0 <= k < |types| ==> ps[k] == SpawnPlayer(types[k], m, k, colors[k])
    ensures ps == InitialPlayers(types, m, choices, picks)
  {
    assert choices[..|types|] == choices;
    assert colors == AssignColors(choices, picks);
  }

  /** `generateFood(playerCount, newPlayers)` at the start: nothing on the board but the new players. */
  function InitialFood(ps: seq<Player>, obstacles: seq<Pos>, draws: Draws): (food: seq<Pos>)
    ensures |food| <= |ps|
  {
    Spawn(|ps|, Occupied(ps, [], obstacles), draws, 0)
  }

  /** A spawn is on open cells of its map and does not overlap itself. */
  lemma SpawnBodyOk(m: MapType, i: nat, obstacles: seq<Pos>)
    requires i < MaxPlayers && forall p :: p in obstacles <==> MapWall(m, p)
    ensures Free(SpawnLayout(m, i), obstacles) && NoDuplicates(SpawnLayout(m, i))
  {
    var s := SpawnLayout(m, i);
    SpawnLayoutSound(m, i);
    StraightLineDistinct(s, InitialDirection(i));
    assert forall j :: 0 <= j < 3 ==> OpenCell(m, s[j]);
  }

  /** Three cells each one step behind the next are pairwise different. */
  lemma StraightLineDistinct(s: seq<Pos>, d: Dir)
    requires |s| == 3 && s[0] == Step(s[1], d) && s[1] == Step(s[2], d)
    ensures NoDuplicates(s)
  {
  }

  /**
    * A new game satisfies the board invariant when the food is placed with
    * the new map's obstacles marked, and no player has a reversal queued.
    */
  lemma InitialArenaOk(types: seq<Control>, m: MapType, choices: seq<ColorOption>, picks: seq<nat>,
                        obstacles: seq<Pos>, draws: Draws)
    requires |types| <= MaxPlayers && |choices| >= |types| && |picks| == |types|
    requires forall p :: p in obstacles <==> MapWall(m, p)
    ensures var ps := InitialPlayers(types, m, choices, picks);
      ArenaOk(ps, InitialFood(ps, obstacles, draws), obstacles) && NoPendingReversal(ps)
  {
    var ps := InitialPlayers(types, m, choices, picks);
    var food := InitialFood(ps, obstacles, draws);
    forall k | 0 <= k < |ps| ensures Free(ps[k].snake, obstacles) && NoDuplicates(ps[k].snake) {
      SpawnBodyOk(m, k, obstacles);
    }
    forall k, l | 0 <= k < |ps| && 0 <= l < |ps| && k != l ensures Apart(ps[k].snake, ps[l].snake) {
      SpawnLayoutsDisjoint(m, k, l);
    }
    SpawnSound(|ps|, Occupied(ps, [], obstacles), draws, 0);
    SpawnOnBoard(|ps|, Occupied(ps, [], obstacles), draws, 0);
    forall g | 0 <= g < |food| ensures food[g] !in obstacles && OffSnakes(food[g], ps) {
      UnoccupiedIsOffSnakes(food[g], ps, [], obstacles);
    }
    forall k | 0 <= k < |ps| ensures !IsReverse(ps[k].nextDirection, ps[k].direction) {
      ReverseIsNotSelf(ps[k].direction);
    }
  }

  /** Kingdoms spawns sit on rows 4 and 15. */
  lemma KingdomsSpawnRows(i: nat, j: nat)
    requires i < MaxPlayers && j < 3
    ensures SpawnLayout(Kingdoms, i)[j].y == 4 || SpawnLayout(Kingdoms, i)[j].y == 15
  {
  }

  /**
    * Placing the first food with the previous game's obstacles marked instead
    * of the new map's: on the first game (no obstacles yet) on the kingdoms
    * map, a first draw of (9, 3) puts a food item on a wall cell.
    */
  lemma StaleObstaclesFoodOnWall(types: seq<Control>, choices: seq<ColorOption>, picks: seq<nat>)
    requires 0 < |types| <= MaxPlayers && |choices| >= |types| && |picks| == |types|
    ensures var ps := InitialPlayers(types, Kingdoms, choices, picks);
      exists draws: Draws :: var food := InitialFood(ps, [], draws);
        |food| > 0 && MapWall(Kingdoms, food[0])
  {
    var ps := InitialPlayers(types, Kingdoms, choices, picks);
    var c := Pos(9, 3);
    var draws: Draws := seq(MaxFoodAttempts, k => if k == 0 then c else Pos(0, 0));
    forall k, j | 0 <= k < |ps| && 0 <= j < |ps[k].snake| ensures ps[k].snake[j] != c {
      KingdomsSpawnRows(k, j);
    }
    assert c !in Occupied(ps, [], []);
    SpawnUnfold(|ps|, Occupied(ps, [], []), draws, 0);
    assert InitialFood(ps, [], draws)[0] == c;
  }
}
