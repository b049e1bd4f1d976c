/** Cells, directions and the constants of the arena. */
module Board {

  /** Width and height of the square board. */
  const BoardSize: int := 20

  /** Score gained for one food item. */
  const FoodValue: nat := 1

  datatype Pos = Pos(x: int, y: int)

  /** The four unit moves; the source stores them as vectors {x, y}. */
  datatype Dir = Up | Down | Left | Right

  datatype Option<T> = None | Some(value: T)

  function Dx(d: Dir): int {
    match d
    case Up => 0
    case Down => 0
    case Left => -1
    case Right => 1
  }

  function Dy(d: Dir): int {
    match d
    case Up => -1
    case Down => 1
    case Left => 0
    case Right => 0
  }

  /** The cell one move away from `p` in direction `d`. */
  function Step(p: Pos, d: Dir): Pos {
    Pos(p.x + Dx(d), p.y + Dy(d))
  }

  /** The source's reversal test: `d` is the exact opposite vector of `e`. */
  predicate IsReverse(d: Dir, e: Dir) {
    Dx(d) == -Dx(e) && Dy(d) == -Dy(e)
  }

  function Reverse(d: Dir): (r: Dir)
    ensures IsReverse(r, d) && IsReverse(d, r)
  {
    match d
    case Up => Down
    case Down => Up
    case Left => Right
    case Right => Left
  }

  /** `Reverse(d)` is the only direction opposite to `d`. */
  lemma ReverseUnique(d: Dir, e: Dir)
    ensures IsReverse(e, d) <==> e == Reverse(d)
  {
  }

  /** No item occurs twice. */
  predicate NoDuplicates<T(==)>(s: seq<T>) {
    forall a, b :: 0 <= a < b < |s| ==> s[a] != s[b]
  }

  /** `r` is `s` with some items left out, the rest in their order. */
  predicate Subsequence<T(==)>(r: seq<T>, s: seq<T>)
    decreases |s|
  {
    if r == [] then true
    else if s == [] then false
    else (r[0] == s[0] && Subsequence(r[1..], s[1..])) || Subsequence(r, s[1..])
  }

  predicate InBounds(p: Pos) {
    0 <= p.x < BoardSize && 0 <= p.y < BoardSize
  }

  function Abs(n: int): nat {
    if n < 0 then -n else n
  }

  /** `|dx| + |dy|`. */
  function Manhattan(a: Pos, b: Pos): nat {
    Abs(a.x - b.x) + Abs(a.y - b.y)
  }

  /** The order in which the AI lists the candidate moves. */
  const AllDirections: seq<Dir> := [Up, Down, Left, Right]
}
