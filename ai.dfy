/**
  * The greedy AI of `getAIDirection`: drop the reversing move, keep the valid
  * ones, then maybe intercept the nearest opponent, else approach the nearest
  * food, else wander. The two `Math.random()` draws become parameters: the
  * aggression coin (`Math.random() < 0.3`) and `pick`, which selects
  * `candidates[pick % |candidates|]` in whichever branch returns.
  */
module AI {
  import opened Board
  import opened Players

  /** An opponent farther than this (Manhattan) is never targeted. */
  const AggressionRange: nat := 10

  /**
    * The moves the AI considers: `[UP, DOWN, LEFT, RIGHT]` with the reverse of
    * `d` filtered out, order kept.
    */
  function NonReversing(d: Dir): (r: seq<Dir>)
    ensures forall e :: e in r <==> e in AllDirections && !IsReverse(e, d)
    ensures forall e :: e in r <==> e in AllDirections && e != Reverse(d)
    ensures d in r && |r| == 3
  {
    match d
    case Up => [Up, Left, Right]
    case Down => [Down, Left, Right]
    case Left => [Up, Down, Left]
    case Right => [Up, Down, Right]
  }

  /** The moves among `moves` whose new head from player `i`'s head is a valid cell, order kept. */
  function KeepValid(moves: seq<Dir>, ps: seq<Player>, obstacles: seq<Pos>, i: nat): (r: seq<Dir>)
    requires i < |ps|
    ensures |r| <= |moves|
    ensures forall e :: e in r <==> e in moves && ValidCell(ps, obstacles, Step(Head(ps[i]), e), i)
    ensures Subsequence(r, moves)
  {
    if moves == [] then []
    else
      var rest := KeepValid(moves[1..], ps, obstacles, i);
      assert forall e :: e in moves <==> e == moves[0] || e in moves[1..];
      if ValidCell(ps, obstacles, Step(Head(ps[i]), moves[0]), i) then [moves[0]] + rest else rest
  }

  /** The non-reversing moves of player `i` whose new head is a valid cell. */
  function ValidMoves(ps: seq<Player>, obstacles: seq<Pos>, i: nat): (r: seq<Dir>)
    requires i < |ps|
    ensures forall e :: e in r <==>
      !IsReverse(e, ps[i].direction) && ValidCell(ps, obstacles, Step(Head(ps[i]), e), i)
  {
    KeepValid(NonReversing(ps[i].direction), ps, obstacles, i)
  }

  /** Indices below `n` of the alive players other than `i`, in index order. */
  function AliveBelow(ps: seq<Player>, i: nat, n: nat): (r: seq<nat>)
    requires n <= |ps|
    ensures forall k :: 0 <= k < |r| ==> r[k] < n && r[k] != i && ps[r[k]].alive
    ensures forall j :: 0 <= j < n && j != i && ps[j].alive ==> j in r
    ensures forall a, b :: 0 <= a < b < |r| ==> r[a] < r[b]
  {
    if n == 0 then []
    else
      var r := AliveBelow(ps, i, n - 1);
      if n - 1 != i && ps[n - 1].alive then r + [n - 1] else r
  }

  /** Indices of the alive players other than `i`, in index order (`players.filter`). */
  function OtherAlive(ps: seq<Player>, i: nat): (r: seq<nat>)
    ensures forall k :: 0 <= k < |r| ==> r[k] < |ps| && r[k] != i && ps[r[k]].alive
    ensures forall j :: 0 <= j < |ps| && j != i && ps[j].alive ==> j in r
    ensures forall a, b :: 0 <= a < b < |r| ==> r[a] < r[b]
  {
    AliveBelow(ps, i, |ps|)
  }

  /**
    * Position of the first smallest entry: the scan of a `forEach` that keeps
    * the best so far and replaces it only on a strictly smaller value.
    */
  function FirstMin(ds: seq<nat>): (r: nat)
    requires |ds| > 0
    ensures r < |ds|
    ensures forall k :: 0 <= k < |ds| ==> ds[r] <= ds[k]
    ensures forall k :: 0 <= k < r ==> ds[r] < ds[k]
  {
    if |ds| == 1 then 0
    else
      var m := FirstMin(ds[..|ds| - 1]);
      if ds[|ds| - 1] < ds[m] then |ds| - 1 else m
  }

  /** The Manhattan distance from each listed opponent's head to `head`. */
  function OpponentDistances(ps: seq<Player>, head: Pos, others: seq<nat>): (ds: seq<nat>)
    requires forall k :: 0 <= k < |others| ==> others[k] < |ps|
    ensures |ds| == |others|
    ensures forall k :: 0 <= k < |others| ==> ds[k] == Manhattan(Head(ps[others[k]]), head)
  {
    if others == [] then []
    else [Manhattan(Head(ps[others[0]]), head)] + OpponentDistances(ps, head, others[1..])
  }

  /** The Manhattan distance from each food item to `head`. */
  function FoodDistances(food: seq<Pos>, head: Pos): (ds: seq<nat>)
    ensures |ds| == |food|
    ensures forall k :: 0 <= k < |food| ==> ds[k] == Manhattan(food[k], head)
  {
    if food == [] then []
    else [Manhattan(food[0], head)] + FoodDistances(food[1..], head)
  }

  /** The opponent the aggressive branch looks at: an alive other player whose head is nearest to `i`'s head. */
  function NearestOpponent(ps: seq<Player>, i: nat): (r: Option<nat>)
    requires i < |ps|
    ensures r.None? <==> forall j :: 0 <= j < |ps| && j != i ==> !ps[j].alive
    ensures r.Some? ==> r.value < |ps| && r.value != i && ps[r.value].alive
    ensures r.Some? ==> forall j :: 0 <= j < |ps| && j != i && ps[j].alive ==>
      Manhattan(Head(ps[r.value]), Head(ps[i])) <= Manhattan(Head(ps[j]), Head(ps[i]))
    ensures r.Some? ==> forall j :: 0 <= j < r.value && j != i && ps[j].alive ==>
      Manhattan(Head(ps[r.value]), Head(ps[i])) < Manhattan(Head(ps[j]), Head(ps[i]))
  {
    var others := OtherAlive(ps, i);
    if others == [] then None
    else
      var ds := OpponentDistances(ps, Head(ps[i]), others);
      var r := others[FirstMin(ds)];
      NearestOpponentFacts(ps, i, others, ds);
      Some(r)
  }

  /** The opponent at the first minimum of the distances is nearest, and strictly nearer than any lower-indexed one. */
  lemma NearestOpponentFacts(ps: seq<Player>, i: nat, others: seq<nat>, ds: seq<nat>)
    requires i < |ps| && others == OtherAlive(ps, i) && others != []
    requires ds == OpponentDistances(ps, Head(ps[i]), others)
    ensures var r := others[FirstMin(ds)];
      && (forall j :: 0 <= j < |ps| && j != i && ps[j].alive ==>
            Manhattan(Head(ps[r]), Head(ps[i])) <= Manhattan(Head(ps[j]), Head(ps[i])))
      && (forall j :: 0 <= j < r && j != i && ps[j].alive ==>
            Manhattan(Head(ps[r]), Head(ps[i])) < Manhattan(Head(ps[j]), Head(ps[i])))
  {
    var m := FirstMin(ds);
    var r := others[m];
    forall j | 0 <= j < |ps| && j != i && ps[j].alive
      ensures Manhattan(Head(ps[r]), Head(ps[i])) <= Manhattan(Head(ps[j]), Head(ps[i]))
      ensures j < r ==> Manhattan(Head(ps[r]), Head(ps[i])) < Manhattan(Head(ps[j]), Head(ps[i]))
    {
      var k :| 0 <= k < |others| && others[k] == j;
      assert ds[k] == Manhattan(Head(ps[j]), Head(ps[i]));
    }
  }

  /** Index of the first food item nearest to `head`, if there is any food. */
  function NearestFood(food: seq<Pos>, head: Pos): (r: Option<nat>)
    ensures r.None? <==> food == []
    ensures r.Some? ==> r.value < |food| && forall k :: 0 <= k < |food| ==> Manhattan(food[r.value], head) <= Manhattan(food[k], head)
    ensures r.Some? ==> forall k :: 0 <= k < r.value ==> Manhattan(food[r.value], head) < Manhattan(food[k], head)
  {
    if food == [] then None
    else
      var ds := FoodDistances(food, head);
      assert forall k :: 0 <= k < |food| ==> ds[k] == Manhattan(food[k], head);
      Some(FirstMin(ds))
  }

  /** The moves among `moves` after which the head is strictly nearer than `bound` to `target`, order kept. */
  function Approaching(moves: seq<Dir>, head: Pos, target: Pos, bound: nat): (r: seq<Dir>)
    ensures forall e :: e in r <==> e in moves && Manhattan(target, Step(head, e)) < bound
  {
    if moves == [] then []
    else
      var rest := Approaching(moves[1..], head, target, bound);
      assert forall e :: e in moves <==> e == moves[0] || e in moves[1..];
      if Manhattan(target, Step(head, moves[0])) < bound then [moves[0]] + rest else rest
  }

  /** Where the source predicts a player's next head: one step along its committed direction. */
  function Predicted(p: Player): (c: Pos)
    ensures Manhattan(c, Head(p)) == 1
  {
    Step(Head(p), p.direction)
  }

  /** The aggressive branch's candidates ([] when there is no opponent within range). */
  function InterceptMoves(ps: seq<Player>, i: nat, valid: seq<Dir>): (r: seq<Dir>)
    requires i < |ps|
    ensures forall e :: e in r ==> e in valid
    ensures r != [] ==>
      && NearestOpponent(ps, i).Some?
      && Manhattan(Head(ps[NearestOpponent(ps, i).value]), Head(ps[i])) < AggressionRange
  {
    match NearestOpponent(ps, i)
    case None => []
    case Some(o) =>
      var minDistance := Manhattan(Head(ps[o]), Head(ps[i]));
      if minDistance < AggressionRange then Approaching(valid, Head(ps[i]), Predicted(ps[o]), minDistance) else []
  }

  /** The food branch's candidates ([] when there is no food). */
  function FoodMoves(food: seq<Pos>, head: Pos, valid: seq<Dir>): (r: seq<Dir>)
    ensures forall e :: e in r ==> e in valid
    ensures r != [] ==> food != []
  {
    match NearestFood(food, head)
    case None => []
    case Some(f) => Approaching(valid, head, food[f], Manhattan(food[f], head))
  }

  /** The direction `getAIDirection` returns for player `i`. */
  function AIChoice(ps: seq<Player>, food: seq<Pos>, obstacles: seq<Pos>, i: nat, aggressive: bool, pick: nat): (r: Dir)
    requires i < |ps|
    ensures !ps[i].alive || ValidMoves(ps, obstacles, i) == [] ==> r == ps[i].direction
    ensures var valid := ValidMoves(ps, obstacles, i);
      ps[i].alive && valid != [] ==>
        var intercept := if aggressive then InterceptMoves(ps, i, valid) else [];
        var toward := FoodMoves(food, Head(ps[i]), valid);
        && (intercept != [] ==> r in intercept)
        && (intercept == [] && toward != [] ==> r in toward)
        && (intercept == [] && toward == [] ==> r in valid)
  {
    var p := ps[i];
    if !p.alive then p.direction
    else
      var valid := ValidMoves(ps, obstacles, i);
      if valid == [] then p.direction
      else
        var intercept := if aggressive then InterceptMoves(ps, i, valid) else [];
        if intercept != [] then intercept[pick % |intercept|]
        else
          var toward := FoodMoves(food, Head(p), valid);
          if toward != [] then toward[pick % |toward|]
          else valid[pick % |valid|]
  }

  /** The AI never answers with the exact reverse of its committed direction. */
  lemma AIChoiceNeverReverses(ps: seq<Player>, food: seq<Pos>, obstacles: seq<Pos>, i: nat, aggressive: bool, pick: nat)
    requires i < |ps|
    ensures !IsReverse(AIChoice(ps, food, obstacles, i, aggressive, pick), ps[i].direction)
  {
    var r := AIChoice(ps, food, obstacles, i, aggressive, pick);
    if ps[i].alive && ValidMoves(ps, obstacles, i) != [] {
      AIChoiceIsValidMove(ps, food, obstacles, i, aggressive, pick);
    }
  }

  /** Whatever branch answers, an alive player with a valid move gets one of its valid moves. */
  lemma AIChoiceIsValidMove(ps: seq<Player>, food: seq<Pos>, obstacles: seq<Pos>, i: nat, aggressive: bool, pick: nat)
    requires i < |ps| && ps[i].alive
    requires ValidMoves(ps, obstacles, i) != []
    ensures AIChoice(ps, food, obstacles, i, aggressive, pick) in ValidMoves(ps, obstacles, i)
  {
    var valid := ValidMoves(ps, obstacles, i);
    var intercept := if aggressive then InterceptMoves(ps, i, valid) else [];
    var toward := FoodMoves(food, Head(ps[i]), valid);
    if intercept != [] {
      assert intercept[pick % |intercept|] in intercept;
    } else if toward != [] {
      assert toward[pick % |toward|] in toward;
    }
  }

  /**
    * The answer's new head is valid exactly when some valid move exists; with
    * none, the player keeps its committed direction (and the move will kill it).
    */
  lemma AIChoiceValidIff(ps: seq<Player>, food: seq<Pos>, obstacles: seq<Pos>, i: nat, aggressive: bool, pick: nat)
    requires i < |ps| && ps[i].alive
    ensures var r := AIChoice(ps, food, obstacles, i, aggressive, pick);
      && (ValidCell(ps, obstacles, Step(Head(ps[i]), r), i) <==> ValidMoves(ps, obstacles, i) != [])
      && (ValidMoves(ps, obstacles, i) == [] ==> r == ps[i].direction)
  {
    var d := ps[i].direction;
    if ValidMoves(ps, obstacles, i) == [] {
      assert d in NonReversing(d);
      assert !IsReverse(d, d);
    } else {
      AIChoiceIsValidMove(ps, food, obstacles, i, aggressive, pick);
    }
  }

  /**
    * The two targeted branches. An intercepting answer puts the head strictly
    * nearer to the opponent's predicted head than that opponent's current
    * distance, which is below the aggression range; otherwise a food-seeking
    * answer puts the head strictly nearer to the nearest food.
    */
  lemma AIChoiceApproaches(ps: seq<Player>, food: seq<Pos>, obstacles: seq<Pos>, i: nat, aggressive: bool, pick: nat)
    requires i < |ps| && ps[i].alive
    ensures var r := AIChoice(ps, food, obstacles, i, aggressive, pick);
      var valid := ValidMoves(ps, obstacles, i);
      var head := Head(ps[i]);
      && (aggressive && valid != [] && InterceptMoves(ps, i, valid) != [] ==>
            var o := NearestOpponent(ps, i).value;
            && Manhattan(Head(ps[o]), head) < AggressionRange
            && Manhattan(Predicted(ps[o]), Step(head, r)) < Manhattan(Head(ps[o]), head))
      && ((!aggressive || InterceptMoves(ps, i, valid) == []) && valid != [] && FoodMoves(food, head, valid) != [] ==>
            var f := NearestFood(food, head).value;
            Manhattan(food[f], Step(head, r)) < Manhattan(food[f], head))
  {
    var valid := ValidMoves(ps, obstacles, i);
    var head := Head(ps[i]);
    if aggressive && valid != [] && InterceptMoves(ps, i, valid) != [] {
      var intercept := InterceptMoves(ps, i, valid);
      assert intercept[pick % |intercept|] in intercept;
    }
    if (!aggressive || InterceptMoves(ps, i, valid) == []) && valid != [] && FoodMoves(food, head, valid) != [] {
      var toward := FoodMoves(food, head, valid);
      assert toward[pick % |toward|] in toward;
    }
  }

  /** `FirstMin` is characterised by its contract: the first position of a smallest entry is unique. */
  lemma FirstMinUnique(ds: seq<nat>, m: nat)
    requires m < |ds|
    requires forall k :: 0 <= k < |ds| ==> ds[m] <= ds[k]
    requires forall k :: 0 <= k < m ==> ds[m] < ds[k]
    ensures FirstMin(ds) == m
  {
  }

  /** The `forEach` over the other alive players that keeps the nearest one (strict `<`, so the first on ties). */
  method ClosestOpponent(ps: seq<Player>, head: Pos, others: seq<nat>) returns (closest: Option<nat>, minDistance: nat)
    requires forall k :: 0 <= k < |others| ==> others[k] < |ps|
    ensures others == [] ==> closest == None
    ensures others != [] ==> var ds := OpponentDistances(ps, head, others);
      closest == Some(others[FirstMin(ds)]) && minDistance == ds[FirstMin(ds)]
  {
    ghost var ds := OpponentDistances(ps, head, others);
    ghost var best := 0;
    closest := None;
    minDistance := 0;
    for k := 0 to |others|
      invariant k == 0 ==> closest == None
      invariant k > 0 ==> best < k && closest == Some(others[best]) && minDistance == ds[best]
      invariant k > 0 ==> forall j :: 0 <= j < k ==> ds[best] <= ds[j]
      invariant k > 0 ==> forall j :: 0 <= j < best ==> ds[best] < ds[j]
    {
      var opponentHead := ps[others[k]].snake[0];
      var distance := Abs(opponentHead.x - head.x) + Abs(opponentHead.y - head.y);
      assert distance == ds[k];
      if closest == None || distance < minDistance {
        minDistance := distance;
        closest := Some(others[k]);
        best := k;
      }
    }
    if others != [] {
      FirstMinUnique(ds, best);
    }
  }

  /** The `forEach` over the food that keeps the nearest item (strict `<`, so the first on ties). */
  method ClosestFood(food: seq<Pos>, head: Pos) returns (closest: Option<nat>, minDistance: nat)
    ensures food == [] ==> closest == None
    ensures food != [] ==> var ds := FoodDistances(food, head);
      closest == Some(FirstMin(ds)) && minDistance == ds[FirstMin(ds)]
  {
    ghost var ds := FoodDistances(food, head);
    closest := None;
    minDistance := 0;
    for k := 0 to |food|
      invariant k == 0 ==> closest == None
      invariant k > 0 ==> closest.Some? && closest.value < k && minDistance == ds[closest.value]
      invariant k > 0 ==> forall j :: 0 <= j < k ==> ds[closest.value] <= ds[j]
      invariant k > 0 ==> forall j :: 0 <= j < closest.value ==> ds[closest.value] < ds[j]
    {
      var distance := Abs(food[k].x - head.x) + Abs(food[k].y - head.y);
      assert distance == ds[k];
      if closest == None || distance < minDistance {
        minDistance := distance;
        closest := Some(k);
      }
    }
    if food != [] {
      FirstMinUnique(ds, closest.value);
    }
  }

  /** The aggressive block of `getAIDirection`: the moves that would intercept the nearest opponent. */
  method InterceptDirections(ps: seq<Player>, i: nat, valid: seq<Dir>) returns (intercept: seq<Dir>)
    requires i < |ps|
    ensures intercept == InterceptMoves(ps, i, valid)
  {
    var head := ps[i].snake[0];
    var others := OtherAlive(ps, i);
    var closest, minDistance := ClosestOpponent(ps, head, others);
    assert closest == NearestOpponent(ps, i);
    intercept := [];
    if closest.Some? && minDistance < AggressionRange {
      var opponent := ps[closest.value];
      var predicted := Step(opponent.snake[0], opponent.direction);
      intercept := Approaching(valid, head, predicted, minDistance);
    }
  }

  /** The food block of `getAIDirection`: the moves that bring the head nearer to the nearest food. */
  method FoodDirections(food: seq<Pos>, head: Pos, valid: seq<Dir>) returns (toward: seq<Dir>)
    ensures toward == FoodMoves(food, head, valid)
  {
    var closestFood, minDistance := ClosestFood(food, head);
    assert closestFood == NearestFood(food, head);
    toward := [];
    if closestFood.Some? {
      toward := Approaching(valid, head, food[closestFood.value], minDistance);
    }
  }

  /** `getAIDirection`. */
  method GetAIDirection(ps: seq<Player>, food: seq<Pos>, obstacles: seq<Pos>, i: nat, aggressive: bool, pick: nat)
    returns (d: Dir)
    requires i < |ps|
    ensures d == AIChoice(ps, food, obstacles, i, aggressive, pick)
  {
    var player := ps[i];
    if !player.alive {
      return player.direction;
    }
    var head := player.snake[0];
    var valid := ValidMoves(ps, obstacles, i);
    if |valid| == 0 {
      return player.direction;
    }
    var others := OtherAlive(ps, i);
    if |others| > 0 && aggressive {
      var intercept := InterceptDirections(ps, i, valid);
      if |intercept| > 0 {
        return intercept[pick % |intercept|];
      }
    }
    var toward := FoodDirections(food, head, valid);
    if |toward| > 0 {
      return toward[pick % |toward|];
    }
    return valid[pick % |valid|];
  }
}
