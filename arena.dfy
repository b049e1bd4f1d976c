/**
  * The board invariant a tick keeps: every alive snake lies on free cells of
  * the board, no two alive segments share a cell, and food items are on the
  * board, off the obstacles, off every snake (dead ones included) and pairwise
  * distinct.
  */
module Arena {
  import opened Board
  import opened Players
  import opened Food
  import opened Tick

  /** Every cell of `body` is on the board and not an obstacle. */
  predicate Free(body: seq<Pos>, obstacles: seq<Pos>) {
    forall j :: 0 <= j < |body| ==> InBounds(body[j]) && body[j] !in obstacles
  }

  /** No cell of `a` is a cell of `b`. */
  predicate Apart(a: seq<Pos>, b: seq<Pos>) {
    forall j :: 0 <= j < |a| ==> a[j] !in b
  }

  predicate OnFreeCells(ps: seq<Player>, obstacles: seq<Pos>) {
    forall k :: 0 <= k < |ps| && ps[k].alive ==> Free(ps[k].snake, obstacles)
  }

  /** No alive snake overlaps itself or another alive snake. */
  predicate SegmentsApart(ps: seq<Player>) {
    && (forall k :: 0 <= k < |ps| && ps[k].alive ==> NoDuplicates(ps[k].snake))
    && (forall k, l :: 0 <= k < |ps| && 0 <= l < |ps| && k != l && ps[k].alive && ps[l].alive ==>
          Apart(ps[k].snake, ps[l].snake))
  }

  predicate OffSnakes(c: Pos, ps: seq<Player>) {
    forall k :: 0 <= k < |ps| ==> c !in ps[k].snake
  }

  predicate FoodFree(food: seq<Pos>, ps: seq<Player>, obstacles: seq<Pos>) {
    && (forall g :: 0 <= g < |food| ==> InBounds(food[g]) && food[g] !in obstacles && OffSnakes(food[g], ps))
    && NoDuplicates(food)
  }

  predicate ArenaOk(ps: seq<Player>, food: seq<Pos>, obstacles: seq<Pos>) {
    && OnFreeCells(ps, obstacles)
    && SegmentsApart(ps)
    && FoodFree(food, ps, obstacles)
  }

  /** A cell outside the occupied set is off every snake. */
  lemma UnoccupiedIsOffSnakes(c: Pos, ps: seq<Player>, food: seq<Pos>, obstacles: seq<Pos>)
    requires c !in Occupied(ps, food, obstacles)
    ensures OffSnakes(c, ps) && c !in food && c !in obstacles
  {
    forall k | 0 <= k < |ps| ensures c !in ps[k].snake {
      forall j | 0 <= j < |ps[k].snake| ensures ps[k].snake[j] != c {
        assert ps[k].snake[j] in SnakeCells(ps);
      }
    }
    assert c !in CellSet(food) && c !in CellSet(obstacles);
  }

  /** What `isValidPosition` guarantees about the cell a player moves to. */
  lemma ValidCellFacts(ps: seq<Player>, obstacles: seq<Pos>, c: Pos, i: nat)
    requires i < |ps| && ValidCell(ps, obstacles, c, i) && ps[i].alive
    ensures InBounds(c) && c !in obstacles
    ensures forall k :: 0 <= k < |ps| && k != i && ps[k].alive ==> c !in ps[k].snake
    ensures c !in ps[i].snake[..|ps[i].snake| - 1]
  {
    forall k | 0 <= k < |ps| && k != i && ps[k].alive ensures c !in ps[k].snake {
      forall j | 0 <= j < |ps[k].snake| ensures ps[k].snake[j] != c {
        assert Blocks(ps, k, j, i);
      }
    }
    var body := ps[i].snake[..|ps[i].snake| - 1];
    forall j | 0 <= j < |body| ensures body[j] != c {
      assert Blocks(ps, i, j, i);
    }
  }

  /**
    * Replacing the body of alive player `i` keeps the snake part of the
    * invariant when the new body is free, has no repeated cell, and shares no
    * cell with another alive snake.
    */
  lemma ReplaceBodyOk(ps: seq<Player>, obstacles: seq<Pos>, i: nat, qs: seq<Player>)
    requires OnFreeCells(ps, obstacles) && SegmentsApart(ps)
    requires i < |ps| && |qs| == |ps| && forall k :: 0 <= k < |ps| && k != i ==> qs[k] == ps[k]
    requires qs[i].alive && NoDuplicates(qs[i].snake) && Free(qs[i].snake, obstacles)
    requires forall k :: 0 <= k < |ps| && k != i && ps[k].alive ==>
      Apart(qs[i].snake, ps[k].snake) && Apart(ps[k].snake, qs[i].snake)
    ensures OnFreeCells(qs, obstacles) && SegmentsApart(qs)
  {
  }

  /** Pushing `c` on `rest`: a cell is in the result exactly when it is `c` or in `rest`. */
  lemma PushFacts(c: Pos, rest: seq<Pos>, obstacles: seq<Pos>, others: seq<seq<Pos>>)
    requires NoDuplicates(rest) && c !in rest && Free(rest, obstacles) && InBounds(c) && c !in obstacles
    requires forall o :: o in others ==> c !in o && Apart(rest, o) && Apart(o, rest)
    ensures NoDuplicates([c] + rest) && Free([c] + rest, obstacles)
    ensures forall o :: o in others ==> Apart([c] + rest, o) && Apart(o, [c] + rest)
  {
    var body := [c] + rest;
    forall a, b | 0 <= a < b < |body| ensures body[a] != body[b] {
      assert body[b] == rest[b - 1];
      if a > 0 {
        assert body[a] == rest[a - 1];
      }
    }
    forall o | o in others ensures Apart(body, o) && Apart(o, body) {
      forall j | 0 <= j < |body| ensures body[j] !in o {
        if j > 0 {
          assert body[j] == rest[j - 1];
        }
      }
    }
  }

  /** A player dying keeps the invariant (its body stays where it is). */
  lemma DieKeepsArena(ps: seq<Player>, food: seq<Pos>, obstacles: seq<Pos>, i: nat)
    requires ArenaOk(ps, food, obstacles) && i < |ps|
    ensures ArenaOk(ps[i := ps[i].(alive := false)], food, obstacles)
  {
    var qs := ps[i := ps[i].(alive := false)];
    forall g | 0 <= g < |food| ensures OffSnakes(food[g], qs) {
      assert OffSnakes(food[g], ps);
    }
  }

  /** The bodies of the alive players other than `i`. */
  function OtherBodies(ps: seq<Player>, i: nat): (r: seq<seq<Pos>>)
    ensures forall k :: 0 <= k < |ps| && k != i && ps[k].alive ==> ps[k].snake in r
    ensures forall o :: o in r ==> exists k :: 0 <= k < |ps| && k != i && ps[k].alive && o == ps[k].snake
  {
    if ps == [] then []
    else
      var r := OtherBodies(ps[1..], if i == 0 then |ps| else i - 1);
      assert forall k :: 1 <= k < |ps| ==> ps[k] == ps[1..][k - 1];
      (if i != 0 && ps[0].alive then [ps[0].snake] else []) + r
  }

  /** A move without food: head pushed, tail popped. */
  lemma SlideKeepsArena(ps: seq<Player>, food: seq<Pos>, obstacles: seq<Pos>, i: nat, newHead: Pos)
    requires ArenaOk(ps, food, obstacles) && i < |ps| && ps[i].alive
    requires ValidCell(ps, obstacles, newHead, i) && newHead !in food
    ensures var p := ps[i];
      ArenaOk(ps[i := p.(snake := [newHead] + p.snake[..|p.snake| - 1])], food, obstacles)
  {
    var p := ps[i];
    var rest := p.snake[..|p.snake| - 1];
    var qs := ps[i := p.(snake := [newHead] + rest)];
    ValidCellFacts(ps, obstacles, newHead, i);
    var others := OtherBodies(ps, i);
    forall o | o in others ensures newHead !in o && Apart(rest, o) && Apart(o, rest) {
      var k :| 0 <= k < |ps| && k != i && ps[k].alive && o == ps[k].snake;
      assert Apart(p.snake, o) && Apart(o, p.snake);
    }
    PushFacts(newHead, rest, obstacles, others);
    ReplaceBodyOk(ps, obstacles, i, qs);
    forall g | 0 <= g < |food| ensures OffSnakes(food[g], qs) {
      assert OffSnakes(food[g], ps);
      assert food[g] !in p.snake;
    }
  }

  /** The tail is kept on a move onto food: the head cell held food, so it is off every snake. */
  lemma GrowBodyOk(ps: seq<Player>, food: seq<Pos>, obstacles: seq<Pos>, i: nat, newHead: Pos)
    requires ArenaOk(ps, food, obstacles) && i < |ps| && ps[i].alive
    requires ValidCell(ps, obstacles, newHead, i) && newHead in food
    ensures var p := ps[i];
      var grown := ps[i := p.(snake := [newHead] + p.snake, score := p.score + FoodValue)];
      OnFreeCells(grown, obstacles) && SegmentsApart(grown)
  {
    var p := ps[i];
    var qs := ps[i := p.(snake := [newHead] + p.snake, score := p.score + FoodValue)];
    ValidCellFacts(ps, obstacles, newHead, i);
    var f :| 0 <= f < |food| && food[f] == newHead;
    assert OffSnakes(food[f], ps);
    var others := OtherBodies(ps, i);
    forall o | o in others ensures newHead !in o && Apart(p.snake, o) && Apart(o, p.snake) {
      var k :| 0 <= k < |ps| && k != i && ps[k].alive && o == ps[k].snake;
    }
    PushFacts(newHead, p.snake, obstacles, others);
    ReplaceBodyOk(ps, obstacles, i, qs);
  }

  /** The items left after the eaten one is removed keep their place in the invariant. */
  lemma RemainingFoodOk(ps: seq<Player>, food: seq<Pos>, obstacles: seq<Pos>, i: nat, newHead: Pos, f: nat)
    requires ArenaOk(ps, food, obstacles) && i < |ps|
    requires f < |food| && food[f] == newHead
    ensures var p := ps[i];
      var grown := ps[i := p.(snake := [newHead] + p.snake, score := p.score + FoodValue)];
      var rest := RemoveAt(food, f);
      && NoDuplicates(rest)
      && forall g :: 0 <= g < |rest| ==>
           InBounds(rest[g]) && rest[g] !in obstacles && OffSnakes(rest[g], grown) && rest[g] in food
  {
    var p := ps[i];
    var qs := ps[i := p.(snake := [newHead] + p.snake, score := p.score + FoodValue)];
    var rest := RemoveAt(food, f);
    forall g | 0 <= g < |rest| ensures InBounds(rest[g]) && rest[g] !in obstacles && OffSnakes(rest[g], qs) && rest[g] in food {
      var h := if g < f then g else g + 1;
      assert rest[g] == food[h] && h != f;
      assert OffSnakes(food[h], ps);
    }
    forall a, b | 0 <= a < b < |rest| ensures rest[a] != rest[b] {
      var ha := if a < f then a else a + 1;
      var hb := if b < f then b else b + 1;
      assert rest[a] == food[ha] && rest[b] == food[hb];
    }
  }

  /** Spawned items avoid everything `generateFood` marked. */
  lemma SpawnedFoodOk(ps: seq<Player>, food: seq<Pos>, obstacles: seq<Pos>, draws: Draws)
    ensures var spawned := Spawn(1, Occupied(ps, food, obstacles), draws, 0);
      && NoDuplicates(spawned)
      && forall b :: 0 <= b < |spawned| ==>
           InBounds(spawned[b]) && spawned[b] !in obstacles && OffSnakes(spawned[b], ps) && spawned[b] !in food
  {
    var occupied := Occupied(ps, food, obstacles);
    var spawned := Spawn(1, occupied, draws, 0);
    SpawnSound(1, occupied, draws, 0);
    SpawnOnBoard(1, occupied, draws, 0);
    forall b | 0 <= b < |spawned|
      ensures InBounds(spawned[b]) && OffSnakes(spawned[b], ps) && spawned[b] !in food && spawned[b] !in obstacles
    {
      assert spawned[b] in spawned;
      UnoccupiedIsOffSnakes(spawned[b], ps, food, obstacles);
    }
  }

  /** Old items followed by newly spawned ones that avoid every old item. */
  lemma AppendFoodFree(rest: seq<Pos>, spawned: seq<Pos>, food: seq<Pos>, ps: seq<Player>, obstacles: seq<Pos>)
    requires NoDuplicates(rest) && NoDuplicates(spawned)
    requires forall g :: 0 <= g < |rest| ==>
      InBounds(rest[g]) && rest[g] !in obstacles && OffSnakes(rest[g], ps) && rest[g] in food
    requires forall b :: 0 <= b < |spawned| ==>
      InBounds(spawned[b]) && spawned[b] !in obstacles && OffSnakes(spawned[b], ps) && spawned[b] !in food
    ensures FoodFree(rest + spawned, ps, obstacles)
  {
    var all := rest + spawned;
    forall g | 0 <= g < |all| ensures InBounds(all[g]) && all[g] !in obstacles && OffSnakes(all[g], ps) {
      if g >= |rest| {
        assert all[g] == spawned[g - |rest|];
      } else {
        assert all[g] == rest[g];
      }
    }
    forall a, b | 0 <= a < b < |all| ensures all[a] != all[b] {
      if b < |rest| {
        assert all[a] == rest[a] && all[b] == rest[b];
      } else if a >= |rest| {
        assert all[a] == spawned[a - |rest|] && all[b] == spawned[b - |rest|];
      } else {
        assert all[a] == rest[a] && all[a] in food;
        assert all[b] == spawned[b - |rest|];
      }
    }
  }

  /** A move onto food: head pushed, tail kept, eaten item replaced by a fresh spawn. */
  lemma GrowKeepsArena(ps: seq<Player>, food: seq<Pos>, obstacles: seq<Pos>, i: nat, newHead: Pos, f: nat, draws: Draws)
    requires ArenaOk(ps, food, obstacles) && i < |ps| && ps[i].alive
    requires ValidCell(ps, obstacles, newHead, i) && f < |food| && food[f] == newHead
    ensures var p := ps[i];
      var grown := ps[i := p.(snake := [newHead] + p.snake, score := p.score + FoodValue)];
      ArenaOk(grown, RemoveAt(food, f) + Spawn(1, Occupied(grown, food, obstacles), draws, 0), obstacles)
  {
    var p := ps[i];
    var grown := ps[i := p.(snake := [newHead] + p.snake, score := p.score + FoodValue)];
    GrowBodyOk(ps, food, obstacles, i, newHead);
    GrowFoodOk(ps, food, obstacles, i, newHead, f, draws, grown, RemoveAt(food, f), Spawn(1, Occupied(grown, food, obstacles), draws, 0));
  }

  lemma GrowFoodOk(ps: seq<Player>, food: seq<Pos>, obstacles: seq<Pos>, i: nat, newHead: Pos, f: nat, draws: Draws,
                   grown: seq<Player>, rest: seq<Pos>, spawned: seq<Pos>)
    requires ArenaOk(ps, food, obstacles) && i < |ps|
    requires f < |food| && food[f] == newHead
    requires grown == ps[i := ps[i].(snake := [newHead] + ps[i].snake, score := ps[i].score + FoodValue)]
    requires rest == RemoveAt(food, f) && spawned == Spawn(1, Occupied(grown, food, obstacles), draws, 0)
    ensures FoodFree(rest + spawned, grown, obstacles)
  {
    RemainingFoodOk(ps, food, obstacles, i, newHead, f);
    SpawnedFoodOk(grown, food, obstacles, draws);
    AppendFoodFree(rest, spawned, food, grown, obstacles);
  }

  /** One player's move keeps the invariant, whichever way it goes. */
  lemma MoveStepKeepsArena(s: Scene, obstacles: seq<Pos>, i: nat, draws: Draws)
    requires i < |s.players| && ArenaOk(s.players, s.food, obstacles)
    ensures var t := MoveStep(s, obstacles, i, draws); ArenaOk(t.players, t.food, obstacles)
  {
    var p := s.players[i];
    if p.alive {
      var newHead := Step(Head(p), p.direction);
      if !ValidCell(s.players, obstacles, newHead, i) {
        DieKeepsArena(s.players, s.food, obstacles, i);
      } else if newHead in s.food {
        EatCase(s, obstacles, i, draws);
      } else {
        SlideKeepsArena(s.players, s.food, obstacles, i, newHead);
      }
    }
  }

  lemma EatCase(s: Scene, obstacles: seq<Pos>, i: nat, draws: Draws)
    requires i < |s.players| && ArenaOk(s.players, s.food, obstacles) && s.players[i].alive
    requires ValidCell(s.players, obstacles, Step(Head(s.players[i]), s.players[i].direction), i)
    requires Step(Head(s.players[i]), s.players[i].direction) in s.food
    ensures var t := MoveStep(s, obstacles, i, draws); ArenaOk(t.players, t.food, obstacles)
  {
    var p := s.players[i];
    var newHead := Step(Head(p), p.direction);
    var f := FindIndex(s.food, newHead).value;
    var grown := s.players[i := p.(snake := [newHead] + p.snake, score := p.score + FoodValue)];
    assert MoveStep(s, obstacles, i, draws)
        == Scene(grown, RemoveAt(s.food, f) + Spawn(1, Occupied(grown, s.food, obstacles), draws, 0));
    GrowKeepsArena(s.players, s.food, obstacles, i, newHead, f, draws);
  }

  /** Phase two keeps the invariant: induction over the players still to move. */
  lemma {:induction false} MoveFromKeepsArena(s: Scene, obstacles: seq<Pos>, k: nat, r: seq<Draw>)
    requires k <= |s.players| && |r| == |s.players|
    requires ArenaOk(s.players, s.food, obstacles)
    ensures var t := MoveFrom(s, obstacles, k, r); ArenaOk(t.players, t.food, obstacles)
    decreases |s.players| - k
  {
    if k < |s.players| {
      MoveStepKeepsArena(s, obstacles, k, r[k].food);
      MoveFromKeepsArena(MoveStep(s, obstacles, k, r[k].food), obstacles, k + 1, r);
    }
  }

  /** Phase one touches no body, so the invariant carries over. */
  lemma SameBodiesKeepArena(ps: seq<Player>, qs: seq<Player>, food: seq<Pos>, obstacles: seq<Pos>)
    requires SameBodies(ps, qs) && ArenaOk(ps, food, obstacles)
    ensures ArenaOk(qs, food, obstacles)
  {
    forall g | 0 <= g < |food| ensures OffSnakes(food[g], qs) {
      assert OffSnakes(food[g], ps);
    }
  }

  /** A whole tick keeps the board invariant. */
  lemma TickKeepsArena(ps: seq<Player>, food: seq<Pos>, obstacles: seq<Pos>, r: seq<Draw>)
    requires |r| == |ps| && ArenaOk(ps, food, obstacles)
    ensures var t := TickScene(ps, food, obstacles, r); ArenaOk(t.players, t.food, obstacles)
  {
    var planned := PlanFrom(ps, food, obstacles, 0, r);
    SameBodiesKeepArena(ps, planned, food, obstacles);
    MoveFromKeepsArena(Scene(planned, food), obstacles, 0, r);
  }
}
