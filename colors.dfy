/**
  * Player colours: the palette, `getRandomColor` (a uniformly drawn palette
  * entry nobody uses yet, or the first entry when all are taken) and the colour
  * loop of `initializePlayers`, which records every assigned colour as used.
  */
module Colors {
  import opened Board

  const PlayerColors: seq<string> := ["emerald", "sky", "amber", "purple", "pink", "red"]

  /** What the player-selection screen hands over for one player. */
  datatype ColorOption = RandomColor | Fixed(name: string)

  /** `palette.filter((color) => !used.includes(color))`. */
  function Unused(palette: seq<string>, used: seq<string>): (r: seq<string>)
    ensures |r| <= |palette|
    ensures forall c :: c in r <==> c in palette && c !in used
  {
    if palette == [] then []
    else if palette[0] in used then Unused(palette[1..], used)
    else [palette[0]] + Unused(palette[1..], used)
  }

  /** The filter keeps the palette's order, which decides the colour a given draw selects. */
  lemma {:induction false} UnusedInOrder(palette: seq<string>, used: seq<string>)
    ensures Subsequence(Unused(palette, used), palette)
  {
    if palette != [] {
      UnusedInOrder(palette[1..], used);
      var rest := Unused(palette[1..], used);
      if palette[0] !in used {
        assert ([palette[0]] + rest)[1..] == rest;
      } else if rest != [] {
        assert Subsequence(rest, palette[1..]);
      }
    }
  }

  /**
    * `getRandomColor`; `pick` stands for `Math.floor(Math.random() * n)`, taken
    * modulo the number `n` of free colours so that every value is a valid draw.
    */
  function GetRandomColor(used: seq<string>, pick: nat): (c: string)
    ensures c in PlayerColors
    ensures (exists f :: f in PlayerColors && f !in used) ==> c !in used
    ensures (forall f :: f in PlayerColors ==> f in used) ==> c == PlayerColors[0]
  {
    var available := Unused(PlayerColors, used);
    if |available| == 0 then PlayerColors[0]
    else available[pick % |available|]
  }

  /** Every free colour can be drawn. */
  lemma EveryFreeColorReachable(used: seq<string>, c: string)
    requires c in PlayerColors && c !in used
    ensures exists pick: nat :: GetRandomColor(used, pick) == c
  {
    var available := Unused(PlayerColors, used);
    var k :| 0 <= k < |available| && available[k] == c;
    assert k % |available| == k;
    assert GetRandomColor(used, k) == available[k];
  }

  /**
    * The colours `initializePlayers` assigns from player `i` on, `used` being
    * the colours pushed for players `0 .. i-1`.
    */
  function AssignFrom(choices: seq<ColorOption>, picks: seq<nat>, used: seq<string>): (r: seq<string>)
    requires |picks| == |choices|
    ensures |r| == |choices|
    decreases |choices|
  {
    if choices == [] then []
    else
      var c := ChooseColor(choices[0], used, picks[0]);
      [c] + AssignFrom(choices[1..], picks[1..], used + [c])
  }

  /** The colour of one player: drawn at random, or the one chosen. */
  function ChooseColor(o: ColorOption, used: seq<string>, pick: nat): (c: string)
    ensures o.Fixed? ==> c == o.name
    ensures o.RandomColor? ==> c in PlayerColors && ((exists f :: f in PlayerColors && f !in used) ==> c !in used)
  {
    if o.RandomColor? then GetRandomColor(used, pick) else o.name
  }

  /** Assigning from player `k` on is assigning player `k`'s colour, then the rest. */
  lemma AssignFromUnfold(choices: seq<ColorOption>, picks: seq<nat>, used: seq<string>, k: nat)
    requires |picks| == |choices| && k < |choices|
    ensures var c := ChooseColor(choices[k], used, picks[k]);
      AssignFrom(choices[k..], picks[k..], used) == [c] + AssignFrom(choices[k + 1..], picks[k + 1..], used + [c])
  {
    assert choices[k..][1..] == choices[k + 1..] && picks[k..][1..] == picks[k + 1..];
  }

  /** The colours of `initializePlayers`, starting from no colour used. */
  function AssignColors(choices: seq<ColorOption>, picks: seq<nat>): (r: seq<string>)
    requires |picks| == |choices|
    ensures |r| == |choices|
  {
    AssignFrom(choices, picks, [])
  }

  /** Drop every copy of `x`. */
  function Without(s: seq<string>, x: string): (r: seq<string>)
    ensures forall y :: y in r <==> y in s && y != x
    ensures x in s ==> |r| < |s|
    ensures |r| <= |s|
  {
    if s == [] then []
    else if s[0] == x then Without(s[1..], x)
    else [s[0]] + Without(s[1..], x)
  }

  /** Pigeonhole: `ys` holding every item of the repetition-free `xs` is as long as `xs`. */
  lemma {:induction false} CoveringIsLonger(xs: seq<string>, ys: seq<string>)
    requires NoDuplicates(xs) && forall x :: x in xs ==> x in ys
    ensures |xs| <= |ys|
  {
    if xs != [] {
      var rest := xs[1..];
      forall a, b | 0 <= a < b < |rest| ensures rest[a] != rest[b] {
        assert rest[a] == xs[a + 1] && rest[b] == xs[b + 1];
      }
      forall x | x in rest ensures x in Without(ys, xs[0]) {
        var k :| 0 <= k < |rest| && rest[k] == x;
        assert x == xs[k + 1] && xs[0] != xs[k + 1];
      }
      CoveringIsLonger(rest, Without(ys, xs[0]));
    }
  }

  /** With fewer used colours than palette entries, some colour is still free. */
  lemma SomeColorFree(used: seq<string>)
    requires |used| < |PlayerColors|
    ensures exists f :: f in PlayerColors && f !in used
  {
    if forall f :: f in PlayerColors ==> f in used {
      var p := PlayerColors;
      assert p[0] != p[1] && p[0] != p[2] && p[0] != p[3] && p[0] != p[4] && p[0] != p[5];
      assert p[1] != p[2] && p[1] != p[3] && p[1] != p[4] && p[1] != p[5];
      assert p[2] != p[3] && p[2] != p[4] && p[2] != p[5];
      assert p[3] != p[4] && p[3] != p[5] && p[4] != p[5];
      CoveringIsLonger(PlayerColors, used);
    }
  }

  /**
    * While the palette lasts, a randomly coloured player never gets a colour
    * already assigned to an earlier player, and a fixed choice is kept as chosen.
    */
  lemma {:induction false} AssignFromSound(choices: seq<ColorOption>, picks: seq<nat>, used: seq<string>)
    requires |picks| == |choices|
    ensures var r := AssignFrom(choices, picks, used);
      forall i :: 0 <= i < |choices| ==>
        && (choices[i].Fixed? ==> r[i] == choices[i].name)
        && (choices[i].RandomColor? ==> r[i] in PlayerColors)
        && (choices[i].RandomColor? && |used| + i < |PlayerColors| ==> r[i] !in used + r[..i])
    decreases |choices|
  {
    if choices != [] {
      var r := AssignFrom(choices, picks, used);
      var c := r[0];
      AssignFromHead(choices, picks, used);
      AssignFromSound(choices[1..], picks[1..], used + [c]);
      var rest := AssignFrom(choices[1..], picks[1..], used + [c]);
      forall i | 1 <= i < |choices|
        ensures choices[i].Fixed? ==> r[i] == choices[i].name
        ensures choices[i].RandomColor? ==> r[i] in PlayerColors
        ensures choices[i].RandomColor? && |used| + i < |PlayerColors| ==> r[i] !in used + r[..i]
      {
        AssignFromShift(choices, picks, used, i);
      }
    }
  }

  /** Player 0's colour: the fixed choice, or a palette entry not in `used` while one is free. */
  lemma AssignFromHead(choices: seq<ColorOption>, picks: seq<nat>, used: seq<string>)
    requires |picks| == |choices| && choices != []
    ensures var r := AssignFrom(choices, picks, used);
      && (choices[0].Fixed? ==> r[0] == choices[0].name)
      && (choices[0].RandomColor? ==> r[0] in PlayerColors)
      && (choices[0].RandomColor? && |used| < |PlayerColors| ==> r[0] !in used + r[..0])
  {
    var r := AssignFrom(choices, picks, used);
    if choices[0].RandomColor? && |used| < |PlayerColors| {
      SomeColorFree(used);
    }
    assert used + r[..0] == used;
  }

  /** Player `i > 0` is player `i - 1` of the assignment that starts after player 0's colour. */
  lemma AssignFromShift(choices: seq<ColorOption>, picks: seq<nat>, used: seq<string>, i: nat)
    requires |picks| == |choices| && 0 < i < |choices|
    ensures var r := AssignFrom(choices, picks, used);
      var rest := AssignFrom(choices[1..], picks[1..], used + [r[0]]);
      && r[i] == rest[i - 1] && choices[i] == choices[1..][i - 1]
      && used + r[..i] == (used + [r[0]]) + rest[..i - 1]
  {
    var r := AssignFrom(choices, picks, used);
    var rest := AssignFrom(choices[1..], picks[1..], used + [r[0]]);
    assert r == [r[0]] + rest;
    assert r[..i] == [r[0]] + rest[..i - 1];
  }

  /** For the whole selection: up to six players choosing at random get six different colours. */
  lemma AssignColorsSound(choices: seq<ColorOption>, picks: seq<nat>)
    requires |picks| == |choices|
    ensures var r := AssignColors(choices, picks);
      forall i :: 0 <= i < |choices| ==>
        && (choices[i].Fixed? ==> r[i] == choices[i].name)
        && (choices[i].RandomColor? ==> r[i] in PlayerColors)
        && (choices[i].RandomColor? && i < |PlayerColors| ==> r[i] !in r[..i])
  {
    AssignFromSound(choices, picks, []);
    assert forall s: seq<string> :: [] + s == s;
  }
}
