/**
  * One tick of `moveSnakes`, as functions on values. Phase one commits
  * `direction := nextDirection` for every alive player in index order and lets
  * each AI plan its next direction; phase two moves every alive player in index
  * order. Both phases update the shared player records in place, so player `i`
  * sees the records of players `0 .. i-1` as already updated in the same tick:
  * here that is `PlanFrom` / `MoveFrom` handing each step the sequence the
  * previous steps produced.
  */
module Tick {
  import opened Board
  import opened Players
  import opened AI
  import opened Food

  /**
    * The random inputs of one tick for one player: the AI's 30% coin, the AI's
    * pick among its candidate moves, and the cells `generateFood` would draw if
    * that player eats. A tick takes one per player, indexed like the players.
    */
  datatype Draw = Draw(aggressive: bool, pick: nat, food: Draws)

  /** Bodies, liveness, scores, kinds and colours are the same. */
  predicate SameBodies(ps: seq<Player>, qs: seq<Player>) {
    && |qs| == |ps|
    && forall k :: 0 <= k < |ps| ==>
         qs[k].snake == ps[k].snake && qs[k].alive == ps[k].alive && qs[k].score == ps[k].score
         && qs[k].kind == ps[k].kind && qs[k].color == ps[k].color
  }

  // ---------------------------------------------------------------- phase one

  /** The first `forEach` of `moveSnakes`, for player `i`. */
  function PlanStep(ps: seq<Player>, food: seq<Pos>, obstacles: seq<Pos>, i: nat, r: seq<Draw>): (qs: seq<Player>)
    requires i < |ps| && |r| == |ps|
    ensures SameBodies(ps, qs)
    ensures forall k :: 0 <= k < |ps| && k != i ==> qs[k] == ps[k]
    ensures !ps[i].alive ==> qs[i] == ps[i]
    ensures ps[i].alive ==> qs[i].direction == ps[i].nextDirection
    ensures ps[i].kind == Human ==> qs[i].nextDirection == ps[i].nextDirection
  {
    var p := ps[i];
    if !p.alive then ps
    else
      var committed := ps[i := p.(direction := p.nextDirection)];
      if p.kind == Ai then
        committed[i := committed[i].(nextDirection := AIChoice(committed, food, obstacles, i, r[i].aggressive, r[i].pick))]
      else committed
  }

  /**
    * Phase one from player `k` on: the records as players `0 .. k-1` left
    * them go to player `k`, and so on to the last player.
    */
  function PlanFrom(ps: seq<Player>, food: seq<Pos>, obstacles: seq<Pos>, k: nat, r: seq<Draw>): (qs: seq<Player>)
    requires k <= |ps| && |r| == |ps|
    ensures SameBodies(ps, qs)
    ensures forall j :: 0 <= j < k ==> qs[j] == ps[j]
    decreases |ps| - k
  {
    if k == |ps| then ps
    else PlanFrom(PlanStep(ps, food, obstacles, k, r), food, obstacles, k + 1, r)
  }

  /** The queued direction of every player is never the reverse of its committed one. */
  predicate NoPendingReversal(ps: seq<Player>) {
    forall k :: 0 <= k < |ps| ==> !IsReverse(ps[k].nextDirection, ps[k].direction)
  }

  /**
    * One commit never turns a snake around: an alive player's new committed
    * direction is the one it had queued, and what it queues for the next tick
    * is again not the reverse of it (a human's queue is left as it is, an AI
    * queues its own answer).
    */
  lemma PlanStepCommits(ps: seq<Player>, food: seq<Pos>, obstacles: seq<Pos>, i: nat, r: seq<Draw>)
    requires i < |ps| && |r| == |ps|
    requires NoPendingReversal(ps)
    ensures var qs := PlanStep(ps, food, obstacles, i, r);
      NoPendingReversal(qs) && !IsReverse(qs[i].direction, ps[i].direction)
  {
    var qs := PlanStep(ps, food, obstacles, i, r);
    ReverseIsNotSelf(ps[i].direction);
    if ps[i].alive {
      var committed := ps[i := ps[i].(direction := ps[i].nextDirection)];
      if ps[i].kind == Ai {
        AIChoiceNeverReverses(committed, food, obstacles, i, r[i].aggressive, r[i].pick);
      } else {
        ReverseIsNotSelf(qs[i].direction);
      }
    }
  }

  /** No player's committed direction in `qs` is the reverse of its direction in `ps`. */
  predicate KeepsHeading(ps: seq<Player>, qs: seq<Player>)
    requires |qs| == |ps|
  {
    forall k :: 0 <= k < |ps| ==> !IsReverse(qs[k].direction, ps[k].direction)
  }

  /** Phase one from player `k` on: `PlanStepCommits` for every remaining player, in index order. */
  lemma {:induction false} PlanFromCommits(ps: seq<Player>, food: seq<Pos>, obstacles: seq<Pos>, k: nat, r: seq<Draw>)
    requires k <= |ps| && |r| == |ps|
    requires NoPendingReversal(ps)
    ensures var qs := PlanFrom(ps, food, obstacles, k, r);
      NoPendingReversal(qs) && KeepsHeading(ps, qs)
    decreases |ps| - k
  {
    if k == |ps| {
      forall j | 0 <= j < |ps| ensures !IsReverse(ps[j].direction, ps[j].direction) {
        ReverseIsNotSelf(ps[j].direction);
      }
    } else {
      var mid := PlanStep(ps, food, obstacles, k, r);
      PlanStepCommits(ps, food, obstacles, k, r);
      PlanFromCommits(mid, food, obstacles, k + 1, r);
      var qs := PlanFrom(mid, food, obstacles, k + 1, r);
      forall j | 0 <= j < |ps| ensures !IsReverse(qs[j].direction, ps[j].direction) {
        if j != k {
          assert mid[j] == ps[j];
        }
      }
    }
  }

  lemma ReverseIsNotSelf(d: Dir)
    ensures !IsReverse(d, d)
  {
  }

  // ---------------------------------------------------------------- phase two

  /** The board as the movement phase sees and changes it. */
  datatype Scene = Scene(players: seq<Player>, food: seq<Pos>)

  /** `food.findIndex` for the cell `c`. */
  function FindIndex(food: seq<Pos>, c: Pos): (r: Option<nat>)
    ensures r.None? <==> c !in food
    ensures r.Some? ==> r.value < |food| && food[r.value] == c && c !in food[..r.value]
  {
    if food == [] then None
    else if food[0] == c then Some(0)
    else match FindIndex(food[1..], c)
      case None => None
      case Some(k) =>
        assert food[1..][..k] == food[1..k + 1];
        assert food[..k + 1] == [food[0]] + food[1..k + 1];
        Some(k + 1)
  }

  /** `filter((_, i) => i !== k)`: every item but the one at `k`, in order. */
  function RemoveAt(s: seq<Pos>, k: nat): (r: seq<Pos>)
    requires k < |s|
    ensures |r| == |s| - 1
    ensures forall j :: 0 <= j < |r| ==> r[j] == if j < k then s[j] else s[j + 1]
  {
    s[..k] + s[k + 1..]
  }

  /** Removing position `k` takes away exactly one occurrence of `s[k]`. */
  lemma RemoveAtContents(s: seq<Pos>, k: nat)
    requires k < |s|
    ensures multiset(RemoveAt(s, k)) + multiset{s[k]} == multiset(s)
  {
    assert s == s[..k] + [s[k]] + s[k + 1..];
  }

  /**
    * The second `forEach` of `moveSnakes`, for player `i`, with `draws` the
    * cells its `generateFood(1, newPlayers)` call would try. That call marks the
    * food list as it stood before this move (the eaten item included, which is
    * under the new head anyway) and the players as moved so far.
    */
  function MoveStep(s: Scene, obstacles: seq<Pos>, i: nat, draws: Draws): (t: Scene)
    requires i < |s.players|
    ensures |t.players| == |s.players|
    ensures forall k :: 0 <= k < |s.players| && k != i ==> t.players[k] == s.players[k]
    ensures var p, q := s.players[i], t.players[i];
      q.kind == p.kind && q.color == p.color && q.direction == p.direction && q.nextDirection == p.nextDirection
  {
    var p := s.players[i];
    if !p.alive then s
    else
      var newHead := Step(Head(p), p.direction);
      if !ValidCell(s.players, obstacles, newHead, i) then
        Scene(s.players[i := p.(alive := false)], s.food)
      else
        match FindIndex(s.food, newHead)
        case Some(f) =>
          var grown := s.players[i := p.(snake := [newHead] + p.snake, score := p.score + FoodValue)];
          Scene(grown, RemoveAt(s.food, f) + Spawn(1, Occupied(grown, s.food, obstacles), draws, 0))
        case None =>
          Scene(s.players[i := p.(snake := [newHead] + p.snake[..|p.snake| - 1])], s.food)
  }

  /**
    * What one player's move does to it: a dead player is skipped; an invalid
    * new head kills it and leaves body and score as they were; otherwise the
    * new head becomes `snake[0]`, and the body grows by one with the score
    * raised by `FOOD_VALUE` when the head lands on food, or keeps its length
    * (the tail popped) and the food list when it does not.
    */
  lemma MoveStepOutcome(s: Scene, obstacles: seq<Pos>, i: nat, draws: Draws)
    requires i < |s.players|
    ensures var t := MoveStep(s, obstacles, i, draws);
      var p, q := s.players[i], t.players[i];
      && (!p.alive ==> t == s)
      && (p.alive ==>
            var newHead := Step(Head(p), p.direction);
            && (!ValidCell(s.players, obstacles, newHead, i) ==>
                  !q.alive && q.snake == p.snake && q.score == p.score && t.food == s.food)
            && (ValidCell(s.players, obstacles, newHead, i) ==> q.alive && q.snake[0] == newHead)
            && (ValidCell(s.players, obstacles, newHead, i) && newHead in s.food ==>
                  |q.snake| == |p.snake| + 1 && q.snake[1..] == p.snake && q.score == p.score + FoodValue)
            && (ValidCell(s.players, obstacles, newHead, i) && newHead !in s.food ==>
                  |q.snake| == |p.snake| && q.snake[1..] == p.snake[..|p.snake| - 1] && q.score == p.score
                  && t.food == s.food))
  {
  }

  /** Phase two from player `k` on, each move seeing the scene the previous moves left. */
  function MoveFrom(s: Scene, obstacles: seq<Pos>, k: nat, r: seq<Draw>): (t: Scene)
    requires k <= |s.players| && |r| == |s.players|
    ensures |t.players| == |s.players|
    decreases |s.players| - k
  {
    if k == |s.players| then s
    else MoveFrom(MoveStep(s, obstacles, k, r[k].food), obstacles, k + 1, r)
  }

  /** Both phases of one tick. */
  function TickScene(ps: seq<Player>, food: seq<Pos>, obstacles: seq<Pos>, r: seq<Draw>): (t: Scene)
    requires |r| == |ps|
    ensures |t.players| == |ps|
  {
    MoveFrom(Scene(PlanFrom(ps, food, obstacles, 0, r), food), obstacles, 0, r)
  }

  /** Phase two moves bodies only: every committed and queued direction stays. */
  lemma {:induction false} MoveFromKeepsDirections(s: Scene, obstacles: seq<Pos>, k: nat, r: seq<Draw>)
    requires k <= |s.players| && |r| == |s.players|
    ensures var t := MoveFrom(s, obstacles, k, r);
      forall j :: 0 <= j < |s.players| ==>
        t.players[j].direction == s.players[j].direction && t.players[j].nextDirection == s.players[j].nextDirection
    decreases |s.players| - k
  {
    if k < |s.players| {
      MoveFromKeepsDirections(MoveStep(s, obstacles, k, r[k].food), obstacles, k + 1, r);
    }
  }

  /**
    * No snake turns around in a tick: the direction each player moves in is
    * not the reverse of the one it last moved in, and no player ends the tick
    * with a reversal queued.
    */
  lemma TickNeverReverses(ps: seq<Player>, food: seq<Pos>, obstacles: seq<Pos>, r: seq<Draw>)
    requires |r| == |ps| && NoPendingReversal(ps)
    ensures var t := TickScene(ps, food, obstacles, r);
      NoPendingReversal(t.players) && KeepsHeading(ps, t.players)
  {
    var planned := PlanFrom(ps, food, obstacles, 0, r);
    PlanFromCommits(ps, food, obstacles, 0, r);
    MoveFromKeepsDirections(Scene(planned, food), obstacles, 0, r);
  }

  // ---------------------------------------------------------------- monotonicity

  /**
    * From `ps` to `qs` nothing is undone: a dead player's record is frozen,
    * scores and lengths never drop, and kinds and colours stay.
    */
  predicate Advances(ps: seq<Player>, qs: seq<Player>) {
    && |qs| == |ps|
    && forall k :: 0 <= k < |ps| ==>
         && (!ps[k].alive ==> qs[k] == ps[k])
         && qs[k].score >= ps[k].score && |qs[k].snake| >= |ps[k].snake|
         && qs[k].kind == ps[k].kind && qs[k].color == ps[k].color
  }

  lemma AdvancesTransitive(ps: seq<Player>, qs: seq<Player>, us: seq<Player>)
    requires Advances(ps, qs) && Advances(qs, us)
    ensures Advances(ps, us)
  {
  }

  /** Phase one freezes dead players and touches no body or score. */
  lemma {:induction false} PlanFromAdvances(ps: seq<Player>, food: seq<Pos>, obstacles: seq<Pos>, k: nat, r: seq<Draw>)
    requires k <= |ps| && |r| == |ps|
    ensures Advances(ps, PlanFrom(ps, food, obstacles, k, r))
    decreases |ps| - k
  {
    if k < |ps| {
      var mid := PlanStep(ps, food, obstacles, k, r);
      PlanFromAdvances(mid, food, obstacles, k + 1, r);
      AdvancesTransitive(ps, mid, PlanFrom(mid, food, obstacles, k + 1, r));
    }
  }

  /** Phase two never revives a player, lowers a score or shortens a snake. */
  lemma {:induction false} MoveFromAdvances(s: Scene, obstacles: seq<Pos>, k: nat, r: seq<Draw>)
    requires k <= |s.players| && |r| == |s.players|
    ensures Advances(s.players, MoveFrom(s, obstacles, k, r).players)
    decreases |s.players| - k
  {
    if k < |s.players| {
      var mid := MoveStep(s, obstacles, k, r[k].food);
      MoveStepOutcome(s, obstacles, k, r[k].food);
      MoveFromAdvances(mid, obstacles, k + 1, r);
      AdvancesTransitive(s.players, mid.players, MoveFrom(mid, obstacles, k + 1, r).players);
    }
  }

  /** A whole tick: dead players stay dead and unchanged, scores and lengths never decrease. */
  lemma TickAdvances(ps: seq<Player>, food: seq<Pos>, obstacles: seq<Pos>, r: seq<Draw>)
    requires |r| == |ps|
    ensures Advances(ps, TickScene(ps, food, obstacles, r).players)
  {
    var planned := PlanFrom(ps, food, obstacles, 0, r);
    PlanFromAdvances(ps, food, obstacles, 0, r);
    MoveFromAdvances(Scene(planned, food), obstacles, 0, r);
    AdvancesTransitive(ps, planned, TickScene(ps, food, obstacles, r).players);
  }

  /**
    * Two alive players heading for the same cell: whichever moves first takes
    * it, and the second runs into the first one's new head and dies.
    */
  lemma ContestedCell(s: Scene, obstacles: seq<Pos>, i: nat, j: nat, di: Draws, dj: Draws)
    requires i < |s.players| && j < |s.players| && i != j
    requires s.players[i].alive && s.players[j].alive
    requires Step(Head(s.players[i]), s.players[i].direction) == Step(Head(s.players[j]), s.players[j].direction)
    requires ValidCell(s.players, obstacles, Step(Head(s.players[i]), s.players[i].direction), i)
    ensures var t := MoveStep(MoveStep(s, obstacles, i, di), obstacles, j, dj);
      t.players[i].alive && !t.players[j].alive
  {
    var c := Step(Head(s.players[i]), s.players[i].direction);
    var mid := MoveStep(s, obstacles, i, di);
    MoveStepOutcome(s, obstacles, i, di);
    assert Blocks(mid.players, i, 0, j);
  }

  /**
    * Two alive players whose heads would swap cells: the first to move runs
    * into the other's head and dies, and then no longer blocks the second.
    */
  lemma HeadSwap(s: Scene, obstacles: seq<Pos>, i: nat, j: nat, di: Draws)
    requires i < |s.players| && j < |s.players| && i != j
    requires s.players[i].alive && s.players[j].alive
    requires Step(Head(s.players[i]), s.players[i].direction) == Head(s.players[j])
    ensures var t := MoveStep(s, obstacles, i, di);
      && !t.players[i].alive && t.players[i].snake == s.players[i].snake
      && t.players[j] == s.players[j]
  {
    assert Blocks(s.players, j, 0, i);
  }

  // ---------------------------------------------------------------- game over

  /** `newPlayers.filter((p) => p.alive).length`. */
  function AliveCount(ps: seq<Player>): (n: nat)
    ensures n <= |ps|
  {
    if ps == [] then 0
    else (if ps[0].alive then 1 else 0) + AliveCount(ps[1..])
  }

  /** `newPlayers.findIndex((p) => p.alive)`, or `None` for `-1`. */
  function FirstAlive(ps: seq<Player>): (w: Option<nat>)
    ensures w.None? <==> forall k :: 0 <= k < |ps| ==> !ps[k].alive
    ensures w.Some? ==> w.value < |ps| && ps[w.value].alive && forall k :: 0 <= k < w.value ==> !ps[k].alive
  {
    if ps == [] then None
    else if ps[0].alive then Some(0)
    else match FirstAlive(ps[1..])
      case None => None
      case Some(k) => Some(k + 1)
  }

  /** The last step of `moveSnakes`: keep going, or stop with an optional winner. */
  datatype Outcome = Continue | Over(winner: Option<nat>)

  function Verdict(ps: seq<Player>): (o: Outcome)
    ensures o.Over? ==> exists k :: 0 <= k < |ps| && !ps[k].alive
    ensures o.Over? && o.winner.Some? ==> o.winner.value < |ps| && ps[o.winner.value].alive
  {
    var alive := AliveCount(ps);
    AliveCountAll(ps);
    if alive <= 1 && alive < |ps| then Over(if alive == 1 then FirstAlive(ps) else None)
    else Continue
  }

  /** No one is alive exactly when the count is zero. */
  lemma {:induction false} AliveCountZero(ps: seq<Player>)
    ensures AliveCount(ps) == 0 <==> forall k :: 0 <= k < |ps| ==> !ps[k].alive
  {
    if ps != [] {
      AliveCountZero(ps[1..]);
      assert forall k :: 1 <= k < |ps| ==> ps[k] == ps[1..][k - 1];
    }
  }

  /** Everyone is alive exactly when the count is the number of players. */
  lemma {:induction false} AliveCountAll(ps: seq<Player>)
    ensures AliveCount(ps) == |ps| <==> forall k :: 0 <= k < |ps| ==> ps[k].alive
  {
    if ps != [] {
      AliveCountAll(ps[1..]);
      assert forall k :: 1 <= k < |ps| ==> ps[k] == ps[1..][k - 1];
    }
  }

  /** With exactly one alive player, the first alive player is the only one. */
  lemma {:induction false} AliveCountOne(ps: seq<Player>)
    requires AliveCount(ps) == 1
    ensures FirstAlive(ps).Some?
    ensures forall k :: 0 <= k < |ps| && ps[k].alive ==> k == FirstAlive(ps).value
  {
    assert ps != [];
    assert forall k :: 1 <= k < |ps| ==> ps[k] == ps[1..][k - 1];
    if ps[0].alive {
      AliveCountZero(ps[1..]);
    } else {
      AliveCountOne(ps[1..]);
    }
  }

  /**
    * What the verdict means: the game stops exactly when at most one player is
    * alive and at least one has died; the winner is then the sole survivor,
    * and there is none when everybody died.
    */
  lemma VerdictMeaning(ps: seq<Player>)
    ensures var o := Verdict(ps);
      && (o.Over? <==> AliveCount(ps) <= 1 && exists k :: 0 <= k < |ps| && !ps[k].alive)
      && (o.Over? && o.winner.Some? ==>
            o.winner.value < |ps| && forall k :: 0 <= k < |ps| ==> (ps[k].alive <==> k == o.winner.value))
      && (o.Over? && o.winner.None? ==> forall k :: 0 <= k < |ps| ==> !ps[k].alive)
  {
    AliveCountAll(ps);
    AliveCountZero(ps);
    if AliveCount(ps) == 1 {
      AliveCountOne(ps);
    }
  }
}
