/** Players and the move-validity rule shared by the AI and the tick. */
module Players {
  import opened Board

  datatype Control = Human | Ai

  /**
    * A snake's cells, head first. Spawns have three cells and a move either
    * keeps the length or grows it, so a snake always has a head.
    */
  type Snake = s: seq<Pos> | |s| > 0 witness [Pos(0, 0)]

  /** One player record; the source mutates these in place during a tick. */
  datatype Player = Player(
    kind: Control,
    snake: Snake,
    direction: Dir,       // committed direction, used by the next move
    nextDirection: Dir,   // queued direction, committed at the start of a tick
    score: nat,
    alive: bool,
    color: string)

  function Head(p: Player): Pos {
    p.snake[0]
  }

  /**
    * The source's `isValidPosition`: `pos` is on the board, is not an obstacle,
    * and is not a segment of any alive snake, except that the mover's own last
    * segment does not count. Dead snakes never block.
    */
  predicate ValidCell(ps: seq<Player>, obstacles: seq<Pos>, pos: Pos, mover: nat)
    ensures ValidCell(ps, obstacles, pos, mover) ==>
      forall k :: 0 <= k < |ps| && k != mover && ps[k].alive ==> pos !in ps[k].snake
  {
    && InBounds(pos)
    && pos !in obstacles
    && forall k, j :: 0 <= k < |ps| && 0 <= j < |ps[k].snake| && Blocks(ps, k, j, mover) ==> ps[k].snake[j] != pos
  }

  /** Segment `j` of player `k` is in the way of `mover`: its snake is alive and it is not the mover's tail. */
  predicate Blocks(ps: seq<Player>, k: nat, j: nat, mover: nat)
    requires k < |ps|
  {
    ps[k].alive && !(k == mover && j == |ps[k].snake| - 1)
  }

  /** The cells of player `k` that stand in the way of `mover`. */
  function Obstructing(p: Player, k: nat, mover: nat): seq<Pos> {
    if !p.alive then [] else if k == mover then p.snake[..|p.snake| - 1] else p.snake
  }

  /**
    * `isValidPosition` rejects exactly three kinds of cell: one off the board,
    * an obstacle, and a segment of an alive snake other than the mover's own
    * last one; a dead snake never blocks.
    */
  lemma ValidCellMeaning(ps: seq<Player>, obstacles: seq<Pos>, pos: Pos, mover: nat)
    ensures ValidCell(ps, obstacles, pos, mover) <==>
      && 0 <= pos.x < BoardSize && 0 <= pos.y < BoardSize
      && pos !in obstacles
      && forall k :: 0 <= k < |ps| ==> pos !in Obstructing(ps[k], k, mover)
  {
    if InBounds(pos) && pos !in obstacles {
      if ValidCell(ps, obstacles, pos, mover) {
        forall k | 0 <= k < |ps| ensures pos !in Obstructing(ps[k], k, mover) {
          var o := Obstructing(ps[k], k, mover);
          forall j | 0 <= j < |o| ensures o[j] != pos {
            assert Blocks(ps, k, j, mover);
          }
        }
      } else {
        var k, j :| 0 <= k < |ps| && 0 <= j < |ps[k].snake| && Blocks(ps, k, j, mover) && ps[k].snake[j] == pos;
        assert Obstructing(ps[k], k, mover)[j] == pos;
      }
    }
  }

  /** The loop with early returns that decides `ValidCell`. */
  method IsValidPosition(ps: seq<Player>, obstacles: seq<Pos>, pos: Pos, mover: nat) returns (ok: bool)
    ensures ok == ValidCell(ps, obstacles, pos, mover)
  {
    if pos.x < 0 || pos.x >= BoardSize || pos.y < 0 || pos.y >= BoardSize {
      return false;
    }
    for o := 0 to |obstacles|
      invariant forall q :: 0 <= q < o ==> obstacles[q] != pos
    {
      if pos.x == obstacles[o].x && pos.y == obstacles[o].y {
        return false;
      }
    }
    for i := 0 to |ps|
      invariant forall k, j :: 0 <= k < i && 0 <= j < |ps[k].snake| && Blocks(ps, k, j, mover) ==> ps[k].snake[j] != pos
    {
      if !ps[i].alive {
        continue;
      }
      for j := 0 to |ps[i].snake|
        invariant forall k, l :: 0 <= k < i && 0 <= l < |ps[k].snake| && Blocks(ps, k, l, mover) ==> ps[k].snake[l] != pos
        invariant forall l :: 0 <= l < j && Blocks(ps, i, l, mover) ==> ps[i].snake[l] != pos
      {
        if i == mover && j == |ps[i].snake| - 1 {
          continue;
        }
        var segment := ps[i].snake[j];
        if pos.x == segment.x && pos.y == segment.y {
          return false;
        }
      }
    }
    return true;
  }
}
