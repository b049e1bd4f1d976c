/**
  * The food spawner `generateFood`: mark every snake segment, food item and
  * obstacle as occupied, then draw random cells until `count` new items are
  * placed or 100 attempts are spent. The random cells are an explicit list of
  * draws (each `Math.floor(Math.random() * BOARD_SIZE)` pair, so on the board).
  */
module Food {
  import opened Board
  import opened Players

  const MaxFoodAttempts: nat := 100

  /**
    * The cells one `generateFood` call may draw, in order: the sampling loop
    * stops after 100 attempts, and `Math.floor(Math.random() * BOARD_SIZE)`
    * only yields coordinates on the board.
    */
  type Draws = s: seq<Pos> | |s| >= MaxFoodAttempts && forall k :: 0 <= k < |s| ==> InBounds(s[k])
    witness seq(MaxFoodAttempts, _ => Pos(0, 0))

  function CellSet(s: seq<Pos>): set<Pos> {
    set c | c in s
  }

  /** Segments of every snake, alive or dead. */
  function SnakeCells(ps: seq<Player>): set<Pos> {
    set k, j | 0 <= k < |ps| && 0 <= j < |ps[k].snake| :: ps[k].snake[j]
  }

  /** The cells `generateFood` marks before it samples. */
  function Occupied(ps: seq<Player>, food: seq<Pos>, obstacles: seq<Pos>): set<Pos> {
    SnakeCells(ps) + CellSet(food) + CellSet(obstacles)
  }

  /** A cell is occupied exactly when it is a segment of some snake, alive or dead, a food item or an obstacle. */
  lemma OccupiedMeaning(ps: seq<Player>, food: seq<Pos>, obstacles: seq<Pos>, c: Pos)
    ensures c in Occupied(ps, food, obstacles) <==>
      || (exists k, j :: 0 <= k < |ps| && 0 <= j < |ps[k].snake| && ps[k].snake[j] == c)
      || c in food || c in obstacles
  {
  }

  /**
    * The items placed by the sampling loop from attempt number `attempt` on,
    * with the cells in `occupied` already marked.
    */
  function Spawn(count: nat, occupied: set<Pos>, draws: Draws, attempt: nat): (r: seq<Pos>)
    ensures |r| <= count
    decreases |draws| - attempt
  {
    if count == 0 || attempt >= MaxFoodAttempts then []
    else
      var c := draws[attempt];
      if c in occupied then Spawn(count, occupied, draws, attempt + 1)
      else [c] + Spawn(count - 1, occupied + {c}, draws, attempt + 1)
  }

  /**
    * What the spawner promises: every placed item is one of the first 100
    * draws from `attempt` on, none lands on an occupied cell, and no two coincide.
    */
  lemma {:induction false} SpawnSound(count: nat, occupied: set<Pos>, draws: Draws, attempt: nat)
    ensures forall c :: c in Spawn(count, occupied, draws, attempt) ==> c !in occupied
    ensures forall c :: c in Spawn(count, occupied, draws, attempt) ==>
      exists a :: attempt <= a < MaxFoodAttempts && draws[a] == c
    ensures NoDuplicates(Spawn(count, occupied, draws, attempt))
    decreases |draws| - attempt
  {
    if count == 0 || attempt >= MaxFoodAttempts {
    } else {
      var c := draws[attempt];
      if c in occupied {
        SpawnSound(count, occupied, draws, attempt + 1);
      } else {
        SpawnSound(count - 1, occupied + {c}, draws, attempt + 1);
        var rest := Spawn(count - 1, occupied + {c}, draws, attempt + 1);
        assert Spawn(count, occupied, draws, attempt) == [c] + rest;
        forall a, b | 0 <= a < b < |[c] + rest| ensures ([c] + rest)[a] != ([c] + rest)[b] {
          if a > 0 {
            assert ([c] + rest)[a] == rest[a - 1];
          }
          assert ([c] + rest)[b] == rest[b - 1];
        }
      }
    }
  }

  /** With on-board draws, every placed item is on the board. */
  lemma SpawnOnBoard(count: nat, occupied: set<Pos>, draws: Draws, attempt: nat)
    ensures forall c :: c in Spawn(count, occupied, draws, attempt) ==> InBounds(c)
  {
    SpawnSound(count, occupied, draws, attempt);
  }

  /** One attempt of the sampling loop. */
  lemma SpawnUnfold(count: nat, occupied: set<Pos>, draws: Draws, attempt: nat)
    requires count > 0 && attempt < MaxFoodAttempts
    ensures draws[attempt] in occupied ==>
      Spawn(count, occupied, draws, attempt) == Spawn(count, occupied, draws, attempt + 1)
    ensures draws[attempt] !in occupied ==>
      Spawn(count, occupied, draws, attempt) == [draws[attempt]] + Spawn(count - 1, occupied + {draws[attempt]}, draws, attempt + 1)
  {
  }

  /** An accepted draw: the loop's invariant after appending it. */
  lemma SampleTake(placed: seq<Pos>, left: nat, marked: set<Pos>, draws: Draws, attempt: nat, target: seq<Pos>)
    requires left > 0 && attempt < MaxFoodAttempts && draws[attempt] !in marked
    requires placed + Spawn(left, marked, draws, attempt) == target
    ensures (placed + [draws[attempt]]) + Spawn(left - 1, marked + {draws[attempt]}, draws, attempt + 1) == target
  {
    SpawnUnfold(left, marked, draws, attempt);
    var rest := Spawn(left - 1, marked + {draws[attempt]}, draws, attempt + 1);
    assert (placed + [draws[attempt]]) + rest == placed + ([draws[attempt]] + rest);
  }

  /** A rejected draw: the loop's invariant after skipping it. */
  lemma SampleSkip(placed: seq<Pos>, left: nat, marked: set<Pos>, draws: Draws, attempt: nat, target: seq<Pos>)
    requires left > 0 && attempt < MaxFoodAttempts && draws[attempt] in marked
    requires placed + Spawn(left, marked, draws, attempt) == target
    ensures placed + Spawn(left, marked, draws, attempt + 1) == target
  {
    SpawnUnfold(left, marked, draws, attempt);
  }

  /** When the loop stops, the items placed so far are all it places. */
  lemma SampleDone(placed: seq<Pos>, left: nat, marked: set<Pos>, draws: Draws, attempt: nat, target: seq<Pos>)
    requires (left == 0 || attempt >= MaxFoodAttempts)
    requires placed + Spawn(left, marked, draws, attempt) == target
    ensures placed == target
  {
    assert Spawn(left, marked, draws, attempt) == [];
    assert placed + [] == placed;
  }

  /** Adding one more player adds exactly its segments. */
  lemma SnakeCellsSnoc(qs: seq<Player>, p: Player)
    ensures SnakeCells(qs + [p]) == SnakeCells(qs) + CellSet(p.snake)
  {
    var all := qs + [p];
    forall c | c in SnakeCells(all) ensures c in SnakeCells(qs) + CellSet(p.snake) {
      var a, j :| 0 <= a < |all| && 0 <= j < |all[a].snake| && all[a].snake[j] == c;
      if a < |qs| {
        assert all[a] == qs[a];
      }
    }
    forall c | c in SnakeCells(qs) + CellSet(p.snake) ensures c in SnakeCells(all) {
      if c in SnakeCells(qs) {
        var a, j :| 0 <= a < |qs| && 0 <= j < |qs[a].snake| && qs[a].snake[j] == c;
        assert all[a] == qs[a];
      } else {
        var j :| 0 <= j < |p.snake| && p.snake[j] == c;
        assert all[|qs|].snake[j] == c;
      }
    }
  }

  /** The three marking `forEach` loops of `generateFood`. */
  method MarkOccupied(ps: seq<Player>, food: seq<Pos>, obstacles: seq<Pos>) returns (occupied: set<Pos>)
    ensures occupied == Occupied(ps, food, obstacles)
  {
    occupied := {};
    for k := 0 to |ps|
      invariant occupied == SnakeCells(ps[..k])
    {
      ghost var before := occupied;
      for j := 0 to |ps[k].snake|
        invariant occupied == before + CellSet(ps[k].snake[..j])
      {
        occupied := occupied + {ps[k].snake[j]};
        assert ps[k].snake[..j + 1] == ps[k].snake[..j] + [ps[k].snake[j]];
      }
      assert ps[k].snake[..|ps[k].snake|] == ps[k].snake;
      assert ps[..k + 1] == ps[..k] + [ps[k]];
      SnakeCellsSnoc(ps[..k], ps[k]);
    }
    assert ps[..|ps|] == ps;
    for k := 0 to |food|
      invariant occupied == SnakeCells(ps) + CellSet(food[..k])
    {
      occupied := occupied + {food[k]};
      assert food[..k + 1] == food[..k] + [food[k]];
    }
    assert food[..|food|] == food;
    for k := 0 to |obstacles|
      invariant occupied == SnakeCells(ps) + CellSet(food) + CellSet(obstacles[..k])
    {
      occupied := occupied + {obstacles[k]};
      assert obstacles[..k + 1] == obstacles[..k] + [obstacles[k]];
    }
    assert obstacles[..|obstacles|] == obstacles;
  }

  /**
    * The sampling `while` loop of `generateFood`: draw until `count` items are
    * placed or the attempts run out. `attempts` is the number of draws consumed.
    */
  method Sample(count: nat, occupied: set<Pos>, draws: Draws) returns (newFood: seq<Pos>, attempts: nat)
    ensures newFood == Spawn(count, occupied, draws, 0)
    ensures attempts <= MaxFoodAttempts
    ensures |newFood| < count ==> attempts == MaxFoodAttempts
  {
    var marked := occupied;
    newFood := [];
    attempts := 0;
    ghost var left := count;
    ghost var target := Spawn(count, occupied, draws, 0);
    assert newFood + Spawn(left, marked, draws, attempts) == target;
    while |newFood| < count && attempts < MaxFoodAttempts
      invariant attempts <= MaxFoodAttempts && |newFood| + left == count
      invariant newFood + Spawn(left, marked, draws, attempts) == target
      decreases MaxFoodAttempts - attempts
    {
      var position := draws[attempts];
      if position !in marked {
        SampleTake(newFood, left, marked, draws, attempts, target);
        newFood := newFood + [position];
        marked := marked + {position};
        left := left - 1;
      } else {
        SampleSkip(newFood, left, marked, draws, attempts, target);
      }
      attempts := attempts + 1;
    }
    SampleDone(newFood, left, marked, draws, attempts, target);
  }

  /** `generateFood` up to the state update: mark, then sample. */
  method GenerateFood(count: nat, ps: seq<Player>, food: seq<Pos>, obstacles: seq<Pos>, draws: Draws)
    returns (newFood: seq<Pos>, attempts: nat)
    ensures newFood == Spawn(count, Occupied(ps, food, obstacles), draws, 0)
    ensures attempts <= MaxFoodAttempts
    ensures |newFood| < count ==> attempts == MaxFoodAttempts
  {
    var occupied := MarkOccupied(ps, food, obstacles);
    newFood, attempts := Sample(count, occupied, draws);
  }
}
