/**
  The regional palette (src/palette/regional_palette.rs): a region cut into
  2^7 coloured rects by seven rounds of the subdivision worklist in which every
  rect splits; a point takes the colour of the first rect containing it.
*/
module RegionalPalettes {
  import opened Wrappers
  import opened Colors
  import opened Points
  import opened Rectangles
  import opened Subdivision

  datatype RegionalPalette = RegionalPalette(bounds: seq<Rectangle>)

  /** `from_region` always runs seven rounds. */
  const RegionRounds: nat := 7

  /** The palette's random colours, which `from_region` unwraps: each split's draw carries two. */
  ghost predicate Colored(draws: (nat, nat) -> SplitDraw) {
    forall r: nat, i: nat :: draws(r, i).colorA.Some? && draws(r, i).colorB.Some?
  }

  /** After a round in which everything splits with colours drawn, every rect has a colour. */
  lemma AlwaysRoundIsColored(rects: seq<Rectangle>, round: nat, draws: (nat, nat) -> SplitDraw)
    requires Colored(draws)
    ensures forall x :: x in AfterRound(rects, Always, round, draws) ==> x.color.Some?
  {
    AlwaysKeepsNothing(rects, round, 0);
    BornArePainted(rects, Always, round, draws, 0);
  }

  /** `from_region`: seven rounds splitting every rect; 128 rects, each with a colour. */
  method FromRegion(bounds: Rectangle, draws: (nat, nat) -> SplitDraw) returns (p: RegionalPalette)
    requires Colored(draws)
    ensures p.bounds == AfterRounds([bounds], Always, RegionRounds, draws)
    ensures |p.bounds| == 128
    ensures forall x :: x in p.bounds ==> x.color.Some?
  {
    var rects := SplitRounds([bounds], Always, RegionRounds, draws);
    AlwaysDoubles([bounds], RegionRounds, draws);
    AlwaysRoundIsColored(AfterRounds([bounds], Always, RegionRounds - 1, draws), RegionRounds - 1, draws);
    p := RegionalPalette(rects);
  }

  /** The index of the first rect containing `point`, or |rects| when none does. */
  function FirstContaining(rects: seq<Rectangle>, point: Point): (k: nat)
    ensures k <= |rects|
    ensures k < |rects| ==> Rectangles.Contains(rects[k], point)
    ensures forall j :: 0 <= j < k ==> !Rectangles.Contains(rects[j], point)
  {
    if rects == [] then 0
    else if Rectangles.Contains(rects[0], point) then 0
    else 1 + FirstContaining(rects[1..], point)
  }

  /** `get_color`: the colour of the first rect containing the point; None when no rect contains it. */
  function GetColor(p: RegionalPalette, point: Point): (c: Option<Color>)
    ensures (forall k :: 0 <= k < |p.bounds| ==> !Rectangles.Contains(p.bounds[k], point)) ==> c == None
    ensures forall k ::
      (0 <= k < |p.bounds| && Rectangles.Contains(p.bounds[k], point) &&
       forall j :: 0 <= j < k ==> !Rectangles.Contains(p.bounds[j], point))
      ==> c == p.bounds[k].color
  {
    var k := FirstContaining(p.bounds, point);
    if k < |p.bounds| then p.bounds[k].color else None
  }

  /** In a palette whose rects all have colours, a point inside some rect gets a colour. */
  lemma CoveredPointsGetAColor(p: RegionalPalette, point: Point, k: nat)
    requires forall x :: x in p.bounds ==> x.color.Some?
    requires k < |p.bounds| && Rectangles.Contains(p.bounds[k], point)
    ensures GetColor(p, point).Some?
  {
    var f := FirstContaining(p.bounds, point);
    assert f < |p.bounds|;
    assert p.bounds[f] in p.bounds;
  }
}
