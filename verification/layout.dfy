/** Where the musicians stand: evenly spaced around the canvas's centre
    with a gap that follows the canvas width but is clamped between 30 and
    50 units; which way their eyes look; how large their shadow is; and the
    band around each musician that a click hits. */
module Layout {
  import opened Scene

  const MinGap: real := 30.0
  const MaxGap: real := 50.0

  /** Half the width of the band around a musician that a click hits. */
  const HitRadius: real := 25.0

  /** The spacing between neighbouring musicians: a ninth of the width,
      first capped at MaxGap and then raised to at least MinGap. */
  function Gap(width: nat): (g: real)
    ensures MinGap <= g <= MaxGap
    ensures MinGap <= width as real / 9.0 <= MaxGap ==> g == width as real / 9.0
  {
    var g0 := width as real / 9.0;
    var g1 := if g0 > MaxGap then MaxGap else g0;
    if g1 < MinGap then MinGap else g1
  }

  /** The clamp picks, of all spacings in [MinGap, MaxGap], the one closest
      to a ninth of the width. */
  lemma GapIsClosestAllowed(width: nat, g: real)
    requires MinGap <= g <= MaxGap
    ensures Abs(Gap(width) - width as real / 9.0) <= Abs(g - width as real / 9.0)
  {
  }

  /** The horizontal position of the musician with index i. */
  function Slot(width: nat, i: int): (s: real)
    ensures s < width as real / 2.0 <==> i < 3
    ensures s > width as real / 2.0 <==> i > 3
  {
    width as real / 2.0 + (i - 3) as real * Gap(width)
  }

  /** Gives every musician its slot for the current width and changes
      nothing else about it. */
  function Place(ms: seq<Musician>, width: nat): (r: seq<Musician>)
    ensures |r| == |ms|
    ensures forall i :: 0 <= i < |r| ==> r[i] == ms[i].(x := Slot(width, i))
  {
    seq(|ms|, i requires 0 <= i < |ms| => ms[i].(x := Slot(width, i)))
  }

  /** The slots are centred on the canvas, symmetric about its centre and
      evenly spaced by Gap. */
  lemma SlotsSymmetricAndEven(width: nat, i: int)
    ensures Slot(width, 3) == width as real / 2.0
    ensures Slot(width, i) + Slot(width, 6 - i) == width as real
    ensures Slot(width, i + 1) - Slot(width, i) == Gap(width)
  {
    var g := Gap(width);
    assert (i - 3) as real * g + (6 - i - 3) as real * g == 0.0 by {
      assert (6 - i - 3) as real == -((i - 3) as real);
    }
    assert (i + 1 - 3) as real * g == (i - 3) as real * g + g;
  }

  /** Narrowing the canvas from 800 to 400 units shrinks the gap from its
      maximum 50 to a ninth of the width, with the musicians still centred
      and symmetric. */
  lemma ResizeKeepsLayout()
    ensures Gap(800) == MaxGap && Gap(400) == 400.0 / 9.0
    ensures Slot(800, 3) == 400.0 && Slot(800, 0) + Slot(800, 6) == 800.0
    ensures Slot(400, 3) == 200.0 && Slot(400, 0) + Slot(400, 6) == 400.0
  {
    SlotsSymmetricAndEven(800, 0);
    SlotsSymmetricAndEven(400, 0);
  }

  /** Any seven positions centred on the canvas and spaced by Gap are
      exactly the slots. */
  lemma {:induction false} SlotsUnique(width: nat, xs: seq<real>)
    requires |xs| == MusicianCount
    requires xs[3] == width as real / 2.0
    requires forall i :: 0 <= i < 6 ==> xs[i + 1] - xs[i] == Gap(width)
    ensures forall i :: 0 <= i < 7 ==> xs[i] == Slot(width, i)
  {
    var g := Gap(width);
    SlotsSymmetricAndEven(width, 0);
    SlotsSymmetricAndEven(width, 1);
    SlotsSymmetricAndEven(width, 2);
    SlotsSymmetricAndEven(width, 3);
    SlotsSymmetricAndEven(width, 4);
    SlotsSymmetricAndEven(width, 5);
    assert xs[4] - xs[3] == g && xs[5] - xs[4] == g && xs[6] - xs[5] == g;
    assert xs[3] - xs[2] == g && xs[2] - xs[1] == g && xs[1] - xs[0] == g;
  }

  /** Horizontal eye offset of musician i: the three left of centre look
      right, the three right of centre look left, the middle one ahead. */
  function LookDir(i: int): (d: real)
    ensures d > 0.0 <==> i < 3
    ensures d < 0.0 <==> i > 3
  {
    if i < 3 then 2.0 else if i > 3 then -2.0 else 0.0
  }

  /** Every musician looks towards the centre, where the fire burns. */
  lemma LooksTowardFire(width: nat, i: int)
    ensures LookDir(i) * (Slot(width, 3) - Slot(width, i)) >= 0.0
    ensures i != 3 ==> LookDir(i) * (Slot(width, 3) - Slot(width, i)) > 0.0
  {
    var g := Gap(width);
    assert Slot(width, 3) - Slot(width, i) == (3 - i) as real * g;
  }

  /** The ground shadow of an airborne musician: a scale that is 1 at the
      ground and shrinks by 1/100 per unit of height; None when the musician
      is on the ground or so high that the scale is not positive. */
  function ShadowScale(y: real): (s: Option<real>)
    ensures s.Some? <==> GroundY - 100.0 < y < GroundY
    ensures s.Some? ==> 0.0 < s.value < 1.0
  {
    if y < GroundY then
      var scale := 1.0 - (GroundY - y) / 100.0;
      if scale > 0.0 then Some(scale) else None
    else None
  }

  /** The higher the musician, the smaller its shadow. */
  lemma ShadowShrinksWithHeight(y1: real, y2: real)
    requires GroundY - 100.0 < y1 < y2 < GroundY
    ensures ShadowScale(y1).value < ShadowScale(y2).value
  {
  }

  /** A click at clickX hits the musician standing at x. */
  predicate Hit(clickX: real, x: real): (b: bool)
    ensures b <==> x - HitRadius < clickX < x + HitRadius
  {
    Abs(clickX - x) < HitRadius
  }

  /** With the musicians in their slots, one click hits at most two of them
      and only neighbours; once the gap has reached its maximum the bands
      no longer overlap and one click hits at most one musician. */
  lemma HitZonesOnlyNeighboursOverlap(width: nat, clickX: real, i: int, j: int)
    requires i < j
    requires Hit(clickX, Slot(width, i)) && Hit(clickX, Slot(width, j))
    ensures j == i + 1
    ensures Gap(width) < MaxGap
  {
    var g := Gap(width);
    assert Slot(width, j) - Slot(width, i) == (j - i) as real * g;
    assert Slot(width, j) - Slot(width, i) < 2.0 * HitRadius;
    assert j - i >= 2 ==> (j - i) as real * g >= 2.0 * g;
    assert j - i < 2;
    assert Slot(width, j) - Slot(width, i) == g;
  }
}
