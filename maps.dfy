/** The four arenas: their static obstacle cells and the spawn table. */
module Maps {
  import opened Board

  datatype MapType = Classic | DeathStar | Kingdoms | Lake

  // ---------------------------------------------------------------------------
  // Orders in which the generators emit cells

  /** `a` comes strictly before `b`, comparing x first when `columnMajor`, else y first. */
  predicate Before(a: Pos, b: Pos, columnMajor: bool) {
    if columnMajor then a.x < b.x || (a.x == b.x && a.y < b.y)
    else a.y < b.y || (a.y == b.y && a.x < b.x)
  }

  predicate StrictlySorted(s: seq<Pos>, columnMajor: bool) {
    forall i, j :: 0 <= i < j < |s| ==> Before(s[i], s[j], columnMajor)
  }

  /**
    * A strictly sorted sequence is determined by its set of elements: any two
    * runs of a generator that emits cells in a fixed order and agree on which
    * cells they emit produce the same list.
    */
  lemma {:induction false} SortedListIsUnique(s: seq<Pos>, t: seq<Pos>, columnMajor: bool)
    requires StrictlySorted(s, columnMajor) && StrictlySorted(t, columnMajor)
    requires forall p :: p in s <==> p in t
    ensures s == t
  {
    assert s != [] ==> s[0] in t;
    assert t != [] ==> t[0] in s;
    if s != [] && t != [] {
      assert s[0] == t[0];
      forall p ensures p in s[1..] <==> p in t[1..] {
        if p in s[1..] {
          var k :| 1 <= k < |s| && s[k] == p;
          assert Before(s[0], p, columnMajor);
          assert p in s;
          assert p in t;
          var l :| 0 <= l < |t| && t[l] == p;
          assert l != 0;
          assert t[1..][l - 1] == p;
        }
        if p in t[1..] {
          var k :| 1 <= k < |t| && t[k] == p;
          assert Before(t[0], p, columnMajor);
          assert p in t;
          assert p in s;
          var l :| 0 <= l < |s| && s[l] == p;
          assert l != 0;
          assert s[1..][l - 1] == p;
        }
      }
      SortedListIsUnique(s[1..], t[1..], columnMajor);
    }
  }

  // ---------------------------------------------------------------------------
  // Death star: everything outside a circle of radius 9 around the board centre

  const DeathStarRadius: int := 9

  /**
    * The centre is (BoardSize / 2 - 0.5, BoardSize / 2 - 0.5); doubling every
    * coordinate keeps it integral (BoardSize - 1), and since both sides are
    * non-negative, `sqrt(d) > r` is `d > r * r`.
    */
  predicate DeathStarWall(p: Pos)
    ensures DeathStarWall(p) ==> !(4 <= p.x <= 15 && 4 <= p.y <= 15)
  {
    var dx := 2 * p.x - (BoardSize - 1);
    var dy := 2 * p.y - (BoardSize - 1);
    dx * dx + dy * dy > (2 * DeathStarRadius) * (2 * DeathStarRadius)
  }

  method GenerateDeathStarObstacles() returns (obs: seq<Pos>)
    ensures forall p :: p in obs <==> InBounds(p) && DeathStarWall(p)
    ensures StrictlySorted(obs, true)
  {
    obs := [];
    for x := 0 to BoardSize
      invariant forall p :: p in obs <==> InBounds(p) && p.x < x && DeathStarWall(p)
      invariant StrictlySorted(obs, true)
      invariant forall i :: 0 <= i < |obs| ==> obs[i].x < x
    {
      for y := 0 to BoardSize
        invariant forall p :: p in obs <==> InBounds(p) && Before(p, Pos(x, y), true) && DeathStarWall(p)
        invariant StrictlySorted(obs, true)
        invariant forall i :: 0 <= i < |obs| ==> Before(obs[i], Pos(x, y), true)
      {
        if DeathStarWall(Pos(x, y)) {
          obs := obs + [Pos(x, y)];
        }
      }
    }
  }

  // ---------------------------------------------------------------------------
  // Kingdoms: two crossing double walls, each pierced by a middle and two edge gaps

  /** Coordinates along a wall that are left open. */
  predicate KingdomsGap(c: int) {
    c < 2 || (7 <= c <= 12) || c > BoardSize - 3
  }

  /** The four walls never meet: the crossing of rows and columns 9-10 is open. */
  predicate KingdomsWall(p: Pos)
    ensures KingdomsWall(p) ==> (9 <= p.x <= 10) != (9 <= p.y <= 10)
  {
    ((p.y == 9 || p.y == 10) && !KingdomsGap(p.x)) ||
    ((p.x == 9 || p.x == 10) && !KingdomsGap(p.y))
  }

  method GenerateKingdomsObstacles() returns (obs: seq<Pos>)
    ensures forall p :: p in obs <==> InBounds(p) && KingdomsWall(p)
    ensures StrictlySorted(obs, true)
  {
    obs := [];
    for x := 0 to BoardSize
      invariant forall p :: p in obs <==> InBounds(p) && p.x < x && KingdomsWall(p)
      invariant StrictlySorted(obs, true)
      invariant forall i :: 0 <= i < |obs| ==> obs[i].x < x
    {
      for y := 0 to BoardSize
        invariant forall p :: p in obs <==> InBounds(p) && Before(p, Pos(x, y), true) && KingdomsWall(p)
        invariant StrictlySorted(obs, true)
        invariant forall i :: 0 <= i < |obs| ==> Before(obs[i], Pos(x, y), true)
      {
        if KingdomsWall(Pos(x, y)) {
          obs := obs + [Pos(x, y)];
        }
      }
    }
  }

  /** Kingdoms walls are exactly rows 9-10 and columns 9-10 of the board minus the gaps. */
  lemma KingdomsWallShape(p: Pos)
    requires InBounds(p) && KingdomsWall(p)
    ensures (p.y in {9, 10} && (2 <= p.x <= 6 || 13 <= p.x <= 17)) ||
            (p.x in {9, 10} && (2 <= p.y <= 6 || 13 <= p.y <= 17))
  {
  }

  // ---------------------------------------------------------------------------
  // Lake: a trapezoid whose rows narrow from 10 cells at the top to 6 at the bottom

  const LakeTopWidth: int := 10
  const LakeBottomWidth: int := 6
  const LakeHeight: int := 6
  const LakeTop: int := 7

  const LakeTopStart: int := (BoardSize - LakeTopWidth) / 2
  const LakeTopEnd: int := LakeTopStart + LakeTopWidth
  const LakeBottomStart: int := (BoardSize - LakeBottomWidth) / 2
  const LakeBottomEnd: int := LakeBottomStart + LakeBottomWidth

  /**
    * `floor(topStart + (bottomStart - topStart) * (y - lakeTop) / height)`,
    * computed exactly over the integers (Dafny's `/` floors for a positive divisor).
    */
  function LakeLeft(y: int): (x: int)
    ensures LakeTop <= y <= 9 ==> x == 5
    ensures 10 <= y < LakeTop + LakeHeight ==> x == 6
  {
    (LakeTopStart * LakeHeight + (LakeBottomStart - LakeTopStart) * (y - LakeTop)) / LakeHeight
  }

  /** `ceil(topEnd + (bottomEnd - topEnd) * (y - lakeTop) / height)`, as `-floor(-q)`. */
  function LakeRight(y: int): (x: int)
    ensures LakeTop <= y <= 9 ==> x == 15
    ensures 10 <= y < LakeTop + LakeHeight ==> x == 14
  {
    -((-(LakeTopEnd * LakeHeight + (LakeBottomEnd - LakeTopEnd) * (y - LakeTop))) / LakeHeight)
  }

  predicate LakeWater(p: Pos)
    ensures LakeWater(p) ==> 7 <= p.y <= 12 && 5 <= p.x <= 14
  {
    LakeTop <= p.y < LakeTop + LakeHeight && LakeLeft(p.y) <= p.x < LakeRight(p.y)
  }

  method GenerateLakeObstacles() returns (obs: seq<Pos>)
    ensures forall p :: p in obs <==> LakeWater(p)
    ensures StrictlySorted(obs, false)
  {
    obs := [];
    for y := LakeTop to LakeTop + LakeHeight
      invariant forall p :: p in obs <==> LakeWater(p) && p.y < y
      invariant StrictlySorted(obs, false)
      invariant forall i :: 0 <= i < |obs| ==> obs[i].y < y
    {
      var left := LakeLeft(y);
      var right := LakeRight(y);
      var x := left;
      while x < right
        invariant left <= x || right <= left
        invariant forall p :: p in obs <==> LakeWater(p) && Before(p, Pos(x, y), false)
        invariant StrictlySorted(obs, false)
        invariant forall i :: 0 <= i < |obs| ==> Before(obs[i], Pos(x, y), false)
      {
        obs := obs + [Pos(x, y)];
        x := x + 1;
      }
      assert forall p :: p in obs <==> LakeWater(p) && p.y < y + 1 by {
        forall p: Pos | p.y == y && LakeWater(p) ensures p in obs {
          assert Before(p, Pos(x, y), false);
        }
      }
    }
  }

  /**
    * The lake's rows: 7 to 9 cover columns 5 to 14, rows 10 to 12 columns 6 to 13;
    * in particular every lake cell is on the board.
    */
  lemma LakeShape(p: Pos)
    ensures LakeWater(p) <==> (7 <= p.y <= 9 && 5 <= p.x <= 14) || (10 <= p.y <= 12 && 6 <= p.x <= 13)
    ensures LakeWater(p) ==> InBounds(p)
  {
  }

  // ---------------------------------------------------------------------------
  // Obstacle set of a map

  /** The cells the map's generator emits (none for classic). */
  predicate MapWall(m: MapType, p: Pos) {
    match m
    case Classic => false
    case DeathStar => InBounds(p) && DeathStarWall(p)
    case Kingdoms => InBounds(p) && KingdomsWall(p)
    case Lake => LakeWater(p)
  }

  /** The source's `MAP_OBSTACLES[mapType]`. */
  method MapObstacles(m: MapType) returns (obs: seq<Pos>)
    ensures forall p :: p in obs <==> MapWall(m, p)
    ensures forall p :: p in obs ==> InBounds(p)
    ensures StrictlySorted(obs, m != Lake)
  {
    match m
    case Classic => obs := [];
    case DeathStar => obs := GenerateDeathStarObstacles();
    case Kingdoms => obs := GenerateKingdomsObstacles();
    case Lake =>
      obs := GenerateLakeObstacles();
      forall p | p in obs ensures InBounds(p) {
        LakeShape(p);
      }
  }

  // ---------------------------------------------------------------------------
  // Spawn table

  /** `INITIAL_DIRECTIONS`: players 0 and 1 start moving right, 2 and 3 left. */
  function InitialDirection(i: nat): (d: Dir)
    requires i < 4
    ensures Dy(d) == 0 && (Dx(d) > 0 <==> i < 2)
  {
    if i < 2 then Right else Left
  }

  /** `MAP_SPAWN_POSITIONS[m][i]`: three cells, head first. */
  function SpawnLayout(m: MapType, i: nat): (s: seq<Pos>)
    requires i < 4
    ensures |s| == 3
  {
    match m
    case Classic | Lake =>
      if i == 0 then [Pos(2, 2), Pos(1, 2), Pos(0, 2)]
      else if i == 1 then [Pos(2, BoardSize - 3), Pos(1, BoardSize - 3), Pos(0, BoardSize - 3)]
      else if i == 2 then [Pos(BoardSize - 3, 2), Pos(BoardSize - 2, 2), Pos(BoardSize - 1, 2)]
      else [Pos(BoardSize - 3, BoardSize - 3), Pos(BoardSize - 2, BoardSize - 3), Pos(BoardSize - 1, BoardSize - 3)]
    case DeathStar =>
      if i == 0 then [Pos(5, 5), Pos(4, 5), Pos(3, 5)]
      else if i == 1 then [Pos(5, BoardSize - 6), Pos(4, BoardSize - 6), Pos(3, BoardSize - 6)]
      else if i == 2 then [Pos(BoardSize - 6, 5), Pos(BoardSize - 5, 5), Pos(BoardSize - 4, 5)]
      else [Pos(BoardSize - 6, BoardSize - 6), Pos(BoardSize - 5, BoardSize - 6), Pos(BoardSize - 4, BoardSize - 6)]
    case Kingdoms =>
      if i == 0 then [Pos(4, 4), Pos(3, 4), Pos(2, 4)]
      else if i == 1 then [Pos(4, 15), Pos(3, 15), Pos(2, 15)]
      else if i == 2 then [Pos(15, 4), Pos(16, 4), Pos(17, 4)]
      else [Pos(15, 15), Pos(16, 15), Pos(17, 15)]
  }

  /** A cell a snake may start on or move to first: on the board and off the map's walls. */
  predicate OpenCell(m: MapType, p: Pos) {
    InBounds(p) && !MapWall(m, p)
  }

  /**
    * Spawn `i` of map `m` is three open cells in a straight line, each one step
    * behind the next in the initial direction, and the first move from the head
    * lands on an open cell.
    */
  predicate SpawnOk(m: MapType, i: nat)
    requires i < 4
  {
    var s := SpawnLayout(m, i);
    var d := InitialDirection(i);
    && |s| == 3
    && OpenCell(m, s[0]) && OpenCell(m, s[1]) && OpenCell(m, s[2])
    && s[0] == Step(s[1], d) && s[1] == Step(s[2], d)
    && OpenCell(m, Step(s[0], d))
  }

  /** Every entry of the spawn table is sound (checked map by map, player by player). */
  lemma SpawnLayoutSound(m: MapType, i: nat)
    requires i < 4
    ensures SpawnOk(m, i)
  {
    match m
    case Classic => ClassicSpawnsSound(i);
    case DeathStar => DeathStarSpawnsSound(i);
    case Kingdoms => KingdomsSpawnsSound(i);
    case Lake => LakeSpawnsSound(i);
  }

  lemma ClassicSpawnsSound(i: nat)
    requires i < 4
    ensures SpawnOk(Classic, i)
  {
  }

  lemma DeathStarSpawnsSound(i: nat)
    requires i < 4
    ensures SpawnOk(DeathStar, i)
  {
    var s := SpawnLayout(DeathStar, i);
    var d := InitialDirection(i);
    DeathStarOpen(s[0]);
    DeathStarOpen(s[1]);
    DeathStarOpen(s[2]);
    DeathStarOpen(Step(s[0], d));
  }

  /** The death star's open disc contains the box of columns 3 to 16 and rows 5 to 14. */
  lemma DeathStarOpen(p: Pos)
    requires 3 <= p.x <= 16 && 5 <= p.y <= 14
    ensures OpenCell(DeathStar, p)
  {
    SquareAtMost(2 * p.x - (BoardSize - 1), 13);
    SquareAtMost(2 * p.y - (BoardSize - 1), 9);
  }

  lemma SquareAtMost(a: int, b: int)
    requires 0 <= b && -b <= a <= b
    ensures a * a <= b * b
  {
    var m := if a < 0 then -a else a;
    assert a * a == m * m;
    assert m * m <= m * b <= b * b;
  }

  lemma KingdomsSpawnsSound(i: nat)
    requires i < 4
    ensures SpawnOk(Kingdoms, i)
  {
    var s := SpawnLayout(Kingdoms, i);
    var d := InitialDirection(i);
    KingdomsOpen(s[0]);
    KingdomsOpen(s[1]);
    KingdomsOpen(s[2]);
    KingdomsOpen(Step(s[0], d));
  }

  /** Kingdoms walls lie on rows and columns 9 and 10 only. */
  lemma KingdomsOpen(p: Pos)
    requires InBounds(p) && p.x != 9 && p.x != 10 && p.y != 9 && p.y != 10
    ensures OpenCell(Kingdoms, p)
  {
  }

  lemma LakeSpawnsSound(i: nat)
    requires i < 4
    ensures SpawnOk(Lake, i)
  {
    var s := SpawnLayout(Lake, i);
    var d := InitialDirection(i);
    LakeOpen(s[0]);
    LakeOpen(s[1]);
    LakeOpen(s[2]);
    LakeOpen(Step(s[0], d));
  }

  /** The lake only covers rows 7 to 12. */
  lemma LakeOpen(p: Pos)
    requires InBounds(p) && (p.y < LakeTop || p.y >= LakeTop + LakeHeight)
    ensures OpenCell(Lake, p)
  {
  }

  /** Different players' spawns share no cell, so no snake starts on another. */
  lemma SpawnLayoutsDisjoint(m: MapType, i: nat, j: nat)
    requires i < 4 && j < 4 && i != j
    ensures forall a, b :: 0 <= a < 3 && 0 <= b < 3 ==> SpawnLayout(m, i)[a] != SpawnLayout(m, j)[b]
  {
  }
}
