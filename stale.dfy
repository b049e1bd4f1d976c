/**
  * The movement step as the game loop runs it. The interval callback keeps
  * the `moveSnakes` of the render in which the loop was started, so its
  * `food.findIndex` and the `food` marked by its `generateFood` are the food
  * list of that render (`captured`), while the removal queued with
  * `setFood((prev) => prev.filter((_, i) => i !== foodIndex))` applies that
  * index to the live list.
  */
module StaleFood {
  import opened Board
  import opened Players
  import opened Food
  import opened Tick

  /** `prev.filter((_, i) => i !== f)`: an index past the end removes nothing. */
  function DropIndex(food: seq<Pos>, f: nat): (r: seq<Pos>)
    ensures f < |food| ==> r == RemoveAt(food, f)
    ensures f >= |food| ==> r == food
    ensures |r| == (if f < |food| then |food| - 1 else |food|)
    ensures forall j :: 0 <= j < |r| ==> r[j] == (if j < f then food[j] else food[j + 1])
  {
    if f < |food| then RemoveAt(food, f) else food
  }

  /** One player's move with the meal test made against `captured`. */
  function MoveStepAsWritten(s: Scene, captured: seq<Pos>, obstacles: seq<Pos>, i: nat, draws: Draws): (t: Scene)
    requires i < |s.players|
    ensures |t.players| == |s.players|
  {
    var p := s.players[i];
    if !p.alive then s
    else
      var newHead := Step(Head(p), p.direction);
      if !ValidCell(s.players, obstacles, newHead, i) then
        Scene(s.players[i := p.(alive := false)], s.food)
      else
        match FindIndex(captured, newHead)
        case Some(f) =>
          var grown := s.players[i := p.(snake := [newHead] + p.snake, score := p.score + FoodValue)];
          Scene(grown, DropIndex(s.food, f) + Spawn(1, Occupied(grown, captured, obstacles), draws, 0))
        case None =>
          Scene(s.players[i := p.(snake := [newHead] + p.snake[..|p.snake| - 1])], s.food)
  }

  /**
    * A head entering a cell whose food was eaten since the loop started (it
    * is in `captured` but no longer on the board) scores and grows as if it
    * had eaten, whereas `MoveStep`, which tests the food on the board, leaves
    * score and length as they were.
    */
  lemma PhantomMeal(s: Scene, captured: seq<Pos>, obstacles: seq<Pos>, i: nat, draws: Draws)
    requires i < |s.players| && s.players[i].alive
    requires var c := Step(Head(s.players[i]), s.players[i].direction);
      ValidCell(s.players, obstacles, c, i) && c in captured && c !in s.food
    ensures var p := s.players[i];
      var stale, live := MoveStepAsWritten(s, captured, obstacles, i, draws).players[i], MoveStep(s, obstacles, i, draws).players[i];
      && stale.score == p.score + FoodValue && |stale.snake| == |p.snake| + 1
      && live.score == p.score && |live.snake| == |p.snake|
  {
    MoveStepOutcome(s, obstacles, i, draws);
  }

  /**
    * A head landing on food placed after the loop started (on the board but
    * not in `captured`) neither scores nor grows, and the item stays; `MoveStep`
    * counts the meal.
    */
  lemma MissedMeal(s: Scene, captured: seq<Pos>, obstacles: seq<Pos>, i: nat, draws: Draws)
    requires i < |s.players| && s.players[i].alive
    requires var c := Step(Head(s.players[i]), s.players[i].direction);
      ValidCell(s.players, obstacles, c, i) && c !in captured && c in s.food
    ensures var p := s.players[i];
      var c := Step(Head(p), p.direction);
      var stale := MoveStepAsWritten(s, captured, obstacles, i, draws);
      var live := MoveStep(s, obstacles, i, draws);
      && stale.players[i].score == p.score && c in stale.food
      && live.players[i].score == p.score + FoodValue
  {
    MoveStepOutcome(s, obstacles, i, draws);
  }
}
