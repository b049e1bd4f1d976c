/**
  * The direction filter of `handleKeyDown`: a key, lower-cased, is looked up
  * in the pressing player's control set, and a direction opposite to the
  * player's committed direction is refused.
  */
module Keys {
  import opened Board

  /** `toLowerCase` on one character, for the ASCII letters the controls use. */
  function LowerChar(c: char): (r: char)
    ensures !('A' <= r <= 'Z')
    ensures !('A' <= c <= 'Z') ==> r == c
    ensures 'A' <= c <= 'Z' ==> 'a' <= r <= 'z'
  {
    if 'A' <= c <= 'Z' then (c as int - 'A' as int + 'a' as int) as char else c
  }

  /** `toLowerCase`, character by character. */
  function Lower(s: string): (r: string)
    ensures |r| == |s|
    ensures forall k :: 0 <= k < |r| ==> !('A' <= r[k] <= 'Z')
    ensures forall k :: 0 <= k < |s| && !('A' <= s[k] <= 'Z') ==> r[k] == s[k]
  {
    seq(|s|, k requires 0 <= k < |s| => LowerChar(s[k]))
  }

  /** One entry of `PLAYER_CONTROLS`. */
  datatype Controls = Controls(up: string, down: string, left: string, right: string)

  const PlayerControls: seq<Controls> := [
    Controls("ArrowUp", "ArrowDown", "ArrowLeft", "ArrowRight"),
    Controls("w", "s", "a", "d"),
    Controls("i", "k", "j", "l"),
    Controls("t", "g", "f", "h")
  ]

  /** The key a control set binds to direction `d`. */
  function KeyFor(c: Controls, d: Dir): string {
    match d
    case Up => c.up
    case Down => c.down
    case Left => c.left
    case Right => c.right
  }

  /** The four keys of a control set stay different once lower-cased. */
  predicate Distinct(c: Controls) {
    forall d: Dir, e: Dir :: d != e ==> Lower(KeyFor(c, d)) != Lower(KeyFor(c, e))
  }

  /**
    * The `if / else if` chain for one player: the new queued direction, or
    * `None` where the source returns without touching the player. Each branch
    * tests one coordinate of the committed direction, which for unit vectors
    * is the reversal test.
    */
  function KeyDirection(key: string, c: Controls, current: Dir): (r: Option<Dir>)
    ensures r.Some? ==> !IsReverse(r.value, current)
  {
    var k := Lower(key);
    if k == Lower(c.up) && Dy(current) != 1 then Some(Up)
    else if k == Lower(c.down) && Dy(current) != -1 then Some(Down)
    else if k == Lower(c.left) && Dx(current) != 1 then Some(Left)
    else if k == Lower(c.right) && Dx(current) != -1 then Some(Right)
    else None
  }

  /**
    * With distinct keys, a key press selects direction `d` exactly when it is
    * the key bound to `d`, whatever its case, and `d` does not reverse the
    * committed direction.
    */
  lemma KeyDirectionExact(key: string, c: Controls, current: Dir, d: Dir)
    requires Distinct(c)
    ensures KeyDirection(key, c, current) == Some(d) <==>
      Lower(key) == Lower(KeyFor(c, d)) && !IsReverse(d, current)
  {
    assert Lower(KeyFor(c, Up)) != Lower(KeyFor(c, Down));
    assert Lower(KeyFor(c, Up)) != Lower(KeyFor(c, Left));
    assert Lower(KeyFor(c, Up)) != Lower(KeyFor(c, Right));
    assert Lower(KeyFor(c, Down)) != Lower(KeyFor(c, Left));
    assert Lower(KeyFor(c, Down)) != Lower(KeyFor(c, Right));
    assert Lower(KeyFor(c, Left)) != Lower(KeyFor(c, Right));
  }

  /** A key bound to none of the four directions leaves the player alone. */
  lemma UnboundKeyIgnored(key: string, c: Controls, current: Dir)
    requires forall d: Dir :: Lower(key) != Lower(KeyFor(c, d))
    ensures KeyDirection(key, c, current) == None
  {
    assert Lower(key) != Lower(KeyFor(c, Up)) && Lower(key) != Lower(KeyFor(c, Down));
    assert Lower(key) != Lower(KeyFor(c, Left)) && Lower(key) != Lower(KeyFor(c, Right));
  }

  /** Every control set of the table has four distinct keys. */
  lemma PlayerControlsDistinct(i: nat)
    requires i < |PlayerControls|
    ensures Distinct(PlayerControls[i])
  {
    var c := PlayerControls[i];
    if i == 0 {
      assert Lower(c.down)[5] == 'd' && Lower(c.left)[5] == 'l';
    } else {
      assert Lower(c.up)[0] != Lower(c.down)[0] && Lower(c.up)[0] != Lower(c.left)[0];
      assert Lower(c.up)[0] != Lower(c.right)[0] && Lower(c.down)[0] != Lower(c.left)[0];
      assert Lower(c.down)[0] != Lower(c.right)[0] && Lower(c.left)[0] != Lower(c.right)[0];
    }
  }

  /** Different players' control sets share no key. */
  lemma ControlSetsDisjoint(i: nat, j: nat, d: Dir, e: Dir)
    requires i < |PlayerControls| && j < |PlayerControls| && i != j
    ensures Lower(KeyFor(PlayerControls[i], d)) != Lower(KeyFor(PlayerControls[j], e))
  {
    var a, b := Lower(KeyFor(PlayerControls[i], d)), Lower(KeyFor(PlayerControls[j], e));
    if i != 0 && j != 0 {
      assert a[0] != b[0];
    } else {
      assert |a| != |b|;
    }
  }
}
