/**
  The piet painting (src/paintings/piet/algo.rs): starting from the canvas
  scaled by 0.95, `rounds` rounds of the subdivision worklist split rects whose
  coin comes up and whose area exceeds 1% of the canvas; every final rect is
  drawn as a closed path in its own colour.
*/
module Piet {
  import opened Wrappers
  import opened Colors
  import opened Points
  import opened Rectangles
  import opened Paths
  import opened Subdivision

  datatype PietConfig = PietConfig(size: real, rounds: nat, splitChance: real, padding: real)

  function Canvas(size: real): Rectangle {
    Rectangles.New(Point(0.0, 0.0), size, size * 1.4)
  }

  /** The first rect of the worklist. */
  function Root(size: real): Rectangle {
    Rectangles.Scale(Canvas(size), 0.95)
  }

  /** A rect splits when its coin comes up and its area exceeds 1% of the canvas's. */
  function PietRule(size: real, coins: (nat, nat) -> bool): Rule {
    Coin(coins, Area(Canvas(size)) * 0.01)
  }

  /** A rect splits only when it is larger than 1% of the canvas. */
  lemma OnlyLargeRectsSplit(size: real, coins: (nat, nat) -> bool, round: nat, i: nat, rect: Rectangle)
    requires Area(rect) <= Area(Canvas(size)) * 0.01
    ensures !Splits(PietRule(size, coins), round, i, rect)
  {
  }

  /** Under the piet rule a rect splits exactly when its coin comes up and it is larger than 1% of the canvas. */
  lemma PietRuleSplitsIff(size: real, coins: (nat, nat) -> bool, round: nat, i: nat, rect: Rectangle)
    ensures Splits(PietRule(size, coins), round, i, rect) <==> coins(round, i) && Area(rect) > Area(Canvas(size)) * 0.01
  {
  }

  /** A final rect as drawn: its outline, filled with its colour. */
  function RectPath(rect: Rectangle): (d: Drawn)
    ensures d.points == Rectangles.ToPath(rect) && d.style == PathStyle(None, None, rect.color)
  {
    Drawn(Rectangles.ToPath(rect), PathStyle(None, None, rect.color))
  }

  /**
    `piet`: the worklist rounds, then one path per final rect, in list order.
    The list ends one longer than it started for every split made.
  */
  method GeneratePiet(config: PietConfig, coins: (nat, nat) -> bool, draws: (nat, nat) -> SplitDraw)
    returns (rects: seq<Rectangle>, paths: seq<Drawn>)
    ensures rects == AfterRounds([Root(config.size)], PietRule(config.size, coins), config.rounds, draws)
    ensures |rects| == 1 + TotalSplits([Root(config.size)], PietRule(config.size, coins), config.rounds, draws)
    ensures |paths| == |rects| && forall k :: 0 <= k < |rects| ==> paths[k] == RectPath(rects[k])
  {
    rects := SplitRounds([Root(config.size)], PietRule(config.size, coins), config.rounds, draws);
    paths := seq(|rects|, k requires 0 <= k < |rects| => RectPath(rects[k]));
  }
}
