/**
  The rectangle-splitting worklist shared by the piet painting
  (src/paintings/piet/algo.rs) and the regional palette
  (src/palette/regional_palette.rs). Each round walks the list from its last
  index down to 0; a rect chosen for splitting is removed from its place and
  its two halves are appended at the end, so the halves are not visited again
  in the same round. Random choices arrive as functions of (round, index).
*/
module Subdivision {
  import opened Wrappers
  import opened Colors
  import opened Points
  import opened Rectangles

  /** The random draws of one split: where, which way, and the colours the halves get (if any). */
  datatype SplitDraw = SplitDraw(point: Point, direction: SplitDirection, colorA: Option<Color>, colorB: Option<Color>)

  /** Which rects a round splits: all of them, or those whose coin comes up and whose area exceeds a floor. */
  datatype Rule = Always | Coin(coins: (nat, nat) -> bool, minArea: real)

  predicate Splits(rule: Rule, round: nat, i: nat, rect: Rectangle) {
    match rule
    case Always => true
    case Coin(coins, minArea) => coins(round, i) && Area(rect) > minArea
  }

  /** `set_color` when the palette gave a colour. */
  function Paint(r: Rectangle, c: Option<Color>): (s: Rectangle)
    ensures Rectangles.Eq(s, r)
    ensures s.color == if c.Some? then c else r.color
  {
    if c.Some? then WithColor(r, c.value) else r
  }

  /** The two halves `subdivide` makes, painted. */
  function Children(rect: Rectangle, d: SplitDraw): (cs: seq<Rectangle>)
    ensures |cs| == 2
  {
    var parts := Subdivide(rect, d.point, d.direction);
    [Paint(parts.0, d.colorA), Paint(parts.1, d.colorB)]
  }

  /** The rects at index lo and above that the round leaves in place, in order. */
  function Kept(rects: seq<Rectangle>, rule: Rule, round: nat, lo: nat): seq<Rectangle>
    decreases |rects| - lo
  {
    if lo >= |rects| then []
    else (if Splits(rule, round, lo, rects[lo]) then [] else [rects[lo]]) + Kept(rects, rule, round, lo + 1)
  }

  /** The halves of the rects at index lo and above that the round splits, highest index first. */
  function Born(rects: seq<Rectangle>, rule: Rule, round: nat, draw: (nat, nat) -> SplitDraw, lo: nat): seq<Rectangle>
    decreases |rects| - lo
  {
    if lo >= |rects| then []
    else
      Born(rects, rule, round, draw, lo + 1) +
      (if Splits(rule, round, lo, rects[lo]) then Children(rects[lo], draw(round, lo)) else [])
  }

  /** How many rects at index lo and above the round splits. */
  function SplitCount(rects: seq<Rectangle>, rule: Rule, round: nat, lo: nat): nat
    decreases |rects| - lo
  {
    if lo >= |rects| then 0
    else (if Splits(rule, round, lo, rects[lo]) then 1 else 0) + SplitCount(rects, rule, round, lo + 1)
  }

  /** One round: the rects left in place, then the halves in the order they were appended. */
  function AfterRound(rects: seq<Rectangle>, rule: Rule, round: nat, draw: (nat, nat) -> SplitDraw): seq<Rectangle> {
    Kept(rects, rule, round, 0) + Born(rects, rule, round, draw, 0)
  }

  /** `rounds` rounds, numbered from 0. */
  function AfterRounds(rects: seq<Rectangle>, rule: Rule, rounds: nat, draw: (nat, nat) -> SplitDraw): seq<Rectangle> {
    if rounds == 0 then rects
    else AfterRound(AfterRounds(rects, rule, rounds - 1, draw), rule, rounds - 1, draw)
  }

  /** How many splits all the rounds make together. */
  function TotalSplits(rects: seq<Rectangle>, rule: Rule, rounds: nat, draw: (nat, nat) -> SplitDraw): nat {
    if rounds == 0 then 0
    else TotalSplits(rects, rule, rounds - 1, draw) + SplitCount(AfterRounds(rects, rule, rounds - 1, draw), rule, rounds - 1, 0)
  }

  /** Each split removes one rect and adds two. */
  lemma {:induction false} KeptAndBornSize(rects: seq<Rectangle>, rule: Rule, round: nat, draw: (nat, nat) -> SplitDraw, lo: nat)
    ensures |Kept(rects, rule, round, lo)| + |Born(rects, rule, round, draw, lo)|
      == (if lo <= |rects| then |rects| - lo else 0) + SplitCount(rects, rule, round, lo)
    decreases |rects| - lo
  {
    if lo < |rects| {
      KeptAndBornSize(rects, rule, round, draw, lo + 1);
    }
  }

  /** A round grows the list by exactly its number of splits, and splits each original rect at most once. */
  lemma RoundSize(rects: seq<Rectangle>, rule: Rule, round: nat, draw: (nat, nat) -> SplitDraw)
    ensures |AfterRound(rects, rule, round, draw)| == |rects| + SplitCount(rects, rule, round, 0)
    ensures SplitCount(rects, rule, round, 0) <= |rects|
  {
    KeptAndBornSize(rects, rule, round, draw, 0);
    SplitCountBound(rects, rule, round, 0);
  }

  lemma {:induction false} SplitCountBound(rects: seq<Rectangle>, rule: Rule, round: nat, lo: nat)
    ensures SplitCount(rects, rule, round, lo) <= (if lo <= |rects| then |rects| - lo else 0)
    decreases |rects| - lo
  {
    if lo < |rects| {
      SplitCountBound(rects, rule, round, lo + 1);
    }
  }

  /** After all rounds the list has grown by exactly the number of splits. */
  lemma {:induction false} RoundsSize(rects: seq<Rectangle>, rule: Rule, rounds: nat, draw: (nat, nat) -> SplitDraw)
    ensures |AfterRounds(rects, rule, rounds, draw)| == |rects| + TotalSplits(rects, rule, rounds, draw)
  {
    if rounds > 0 {
      RoundsSize(rects, rule, rounds - 1, draw);
      RoundSize(AfterRounds(rects, rule, rounds - 1, draw), rule, rounds - 1, draw);
    }
  }

  /** When every rect splits, nothing stays in place and every rect is a painted half. */
  lemma {:induction false} AlwaysKeepsNothing(rects: seq<Rectangle>, round: nat, lo: nat)
    ensures Kept(rects, Always, round, lo) == []
    ensures SplitCount(rects, Always, round, lo) == (if lo <= |rects| then |rects| - lo else 0)
    decreases |rects| - lo
  {
    if lo < |rects| {
      AlwaysKeepsNothing(rects, round, lo + 1);
    }
  }

  /** Halves painted with a colour each have a colour. */
  lemma {:induction false} BornArePainted(rects: seq<Rectangle>, rule: Rule, round: nat, draw: (nat, nat) -> SplitDraw, lo: nat)
    requires forall i :: lo <= i < |rects| ==> draw(round, i).colorA.Some? && draw(round, i).colorB.Some?
    ensures forall x :: x in Born(rects, rule, round, draw, lo) ==> x.color.Some?
    decreases |rects| - lo
  {
    if lo < |rects| {
      BornArePainted(rects, rule, round, draw, lo + 1);
    }
  }

  function Pow2(n: nat): nat {
    if n == 0 then 1 else 2 * Pow2(n - 1)
  }

  /** When every rect splits in every round, n rounds multiply the count by 2^n. */
  lemma {:induction false} AlwaysDoubles(rects: seq<Rectangle>, rounds: nat, draw: (nat, nat) -> SplitDraw)
    ensures |AfterRounds(rects, Always, rounds, draw)| == |rects| * Pow2(rounds)
  {
    if rounds > 0 {
      var before := AfterRounds(rects, Always, rounds - 1, draw);
      AlwaysDoubles(rects, rounds - 1, draw);
      RoundSize(before, Always, rounds - 1, draw);
      AlwaysKeepsNothing(before, rounds - 1, 0);
      assert |AfterRounds(rects, Always, rounds, draw)| == 2 * |before|;
      DoubleProduct(|rects|, Pow2(rounds - 1));
    }
  }

  lemma DoubleProduct(a: nat, b: nat)
    ensures a * (2 * b) == 2 * (a * b)
  {
  }

  lemma KeptBornStep(rects: seq<Rectangle>, rule: Rule, round: nat, draw: (nat, nat) -> SplitDraw, j: nat)
    requires j < |rects|
    ensures Splits(rule, round, j, rects[j]) ==>
      Kept(rects, rule, round, j) == Kept(rects, rule, round, j + 1) &&
      Born(rects, rule, round, draw, j) == Born(rects, rule, round, draw, j + 1) + Children(rects[j], draw(round, j))
    ensures !Splits(rule, round, j, rects[j]) ==>
      Kept(rects, rule, round, j) == [rects[j]] + Kept(rects, rule, round, j + 1) &&
      Born(rects, rule, round, draw, j) == Born(rects, rule, round, draw, j + 1)
  {
  }

  /** Removing the element after a prefix, and pushing onto the back, rearranged. */
  lemma RemoveAt<T>(pre: seq<T>, x: T, kept: seq<T>, born: seq<T>, children: seq<T>)
    ensures var s := pre + [x] + kept + born;
      s[|pre|] == x && s[..|pre|] + s[|pre| + 1..] + children == pre + kept + (born + children)
  {
    var s := pre + [x] + kept + born;
    assert s[..|pre|] == pre;
    assert s[|pre| + 1..] == kept + born;
  }

  /** Keeping the element in place is the same list, regrouped. */
  lemma KeepAt<T>(pre: seq<T>, x: T, kept: seq<T>, born: seq<T>)
    ensures pre + ([x] + kept) + born == pre + [x] + kept + born
  {
  }

  /** The list part-way through a round: indices below i not yet visited. */
  function Partial(rects: seq<Rectangle>, rule: Rule, round: nat, draw: (nat, nat) -> SplitDraw, i: nat): seq<Rectangle>
    requires i <= |rects|
  {
    rects[..i] + Kept(rects, rule, round, i) + Born(rects, rule, round, draw, i)
  }

  /** Visiting index j: the rect there is still the original, and a split removes it and appends its halves. */
  lemma PartialStep(rects: seq<Rectangle>, rule: Rule, round: nat, draw: (nat, nat) -> SplitDraw, j: nat)
    requires j < |rects|
    ensures Partial(rects, rule, round, draw, j + 1)[j] == rects[j]
    ensures var o := Partial(rects, rule, round, draw, j + 1);
      Partial(rects, rule, round, draw, j) ==
        if Splits(rule, round, j, rects[j]) then o[..j] + o[j + 1..] + Children(rects[j], draw(round, j)) else o
  {
    var rect := rects[j];
    var pre := rects[..j];
    var kept := Kept(rects, rule, round, j + 1);
    var born := Born(rects, rule, round, draw, j + 1);
    var children := Children(rect, draw(round, j));
    assert rects[..j + 1] == pre + [rect];
    assert Partial(rects, rule, round, draw, j + 1) == pre + [rect] + kept + born;
    KeptBornStep(rects, rule, round, draw, j);
    RemoveAt(pre, rect, kept, born, children);
    KeepAt(pre, rect, kept, born);
  }

  lemma PartialStart(rects: seq<Rectangle>, rule: Rule, round: nat, draw: (nat, nat) -> SplitDraw)
    ensures Partial(rects, rule, round, draw, |rects|) == rects
    ensures Partial(rects, rule, round, draw, 0) == AfterRound(rects, rule, round, draw)
  {
    assert rects[..|rects|] == rects;
    assert rects[..0] == [];
  }

  /**
    One round of the worklist loop: from the last index down to 0, a rect the
    rule picks is removed and its two halves pushed at the end.
  */
  method SplitRound(rects: seq<Rectangle>, rule: Rule, round: nat, draw: (nat, nat) -> SplitDraw)
    returns (out: seq<Rectangle>)
    ensures out == AfterRound(rects, rule, round, draw)
    ensures |out| == |rects| + SplitCount(rects, rule, round, 0)
  {
    PartialStart(rects, rule, round, draw);
    out := rects;
    var i := |rects|;
    while i > 0
      invariant 0 <= i <= |rects|
      invariant out == Partial(rects, rule, round, draw, i)
    {
      var j := i - 1;
      PartialStep(rects, rule, round, draw, j);
      var rect := out[j];
      if Splits(rule, round, j, rect) {
        out := out[..j] + out[j + 1..] + Children(rect, draw(round, j));
      }
      i := j;
    }
    RoundSize(rects, rule, round, draw);
  }

  /** The outer loop: `rounds` rounds of `SplitRound`. */
  method SplitRounds(rects: seq<Rectangle>, rule: Rule, rounds: nat, draw: (nat, nat) -> SplitDraw)
    returns (out: seq<Rectangle>)
    ensures out == AfterRounds(rects, rule, rounds, draw)
    ensures |out| == |rects| + TotalSplits(rects, rule, rounds, draw)
  {
    out := rects;
    var r := 0;
    while r < rounds
      invariant 0 <= r <= rounds
      invariant out == AfterRounds(rects, rule, r, draw)
    {
      out := SplitRound(out, rule, r, draw);
      r := r + 1;
    }
    RoundsSize(rects, rule, rounds, draw);
  }
}
