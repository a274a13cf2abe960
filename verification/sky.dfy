/** The starfield: eighty stars generated once, each twinkling by moving
    its brightness by its own speed every frame and reversing direction once
    the brightness leaves [0, 1]. */
module Sky {
  import opened Scene

  /** The random draws that generate one star. */
  datatype StarDraw = StarDraw(rx: real, ry: real, ralpha: real, rspeed: real)

  predicate ValidDraw(d: StarDraw) {
    IsDraw(d.rx) && IsDraw(d.ry) && IsDraw(d.ralpha) && IsDraw(d.rspeed)
  }

  /** A new star somewhere over the window's width in the top 200 units,
      with a random brightness and a twinkle speed in [0.01, 0.06). */
  function NewStar(d: StarDraw, windowWidth: real): (s: Star)
    requires ValidDraw(d) && windowWidth >= 0.0
    ensures 0.0 <= s.x <= windowWidth && 0.0 <= s.y < 200.0
    ensures 0.0 <= s.alpha < 1.0
    ensures 0.01 <= s.twinkleSpeed < 0.06
    ensures Twinkling(s)
  {
    DrawScales(d.rx, windowWidth);
    Star(d.rx * windowWidth, d.ry * 200.0, d.ralpha, 0.01 + d.rspeed * 0.05)
  }

  /** A draw times a non-negative extent lands within that extent. */
  lemma DrawScales(r: real, extent: real)
    requires IsDraw(r) && extent >= 0.0
    ensures 0.0 <= r * extent <= extent
  {
    assert (1.0 - r) * extent >= 0.0;
  }

  /** The twinkle invariant: the brightness is at most one step outside
      [0, 1], and when it is outside it is heading back in. */
  predicate Twinkling(s: Star) {
    && -Abs(s.twinkleSpeed) <= s.alpha <= 1.0 + Abs(s.twinkleSpeed)
    && (s.alpha > 1.0 ==> s.twinkleSpeed <= 0.0)
    && (s.alpha < 0.0 ==> s.twinkleSpeed >= 0.0)
    && Abs(s.twinkleSpeed) <= 1.0
  }

  /** One frame of a star: if the canvas has shrunk so that the star lies
      past its right edge it is moved to a random place across the width;
      then the brightness moves by the speed, and the speed flips sign when
      the new brightness is above 1 or below 0. */
  function Twinkle(s: Star, width: nat, r: real): (t: Star)
    requires IsDraw(r)
    ensures t.x <= width as real
    ensures s.x <= width as real ==> t.x == s.x
    ensures t.y == s.y
    ensures t.alpha == s.alpha + s.twinkleSpeed
    ensures Abs(t.twinkleSpeed) == Abs(s.twinkleSpeed)
    ensures 0.0 <= t.alpha <= 1.0 ==> t.twinkleSpeed == s.twinkleSpeed
    ensures t.alpha > 1.0 || t.alpha < 0.0 ==> t.twinkleSpeed == -s.twinkleSpeed
    ensures Twinkling(s) ==> Twinkling(t)
  {
    DrawScales(r, width as real);
    var x := if s.x > width as real then r * width as real else s.x;
    var alpha := s.alpha + s.twinkleSpeed;
    var speed := if alpha > 1.0 || alpha < 0.0 then -s.twinkleSpeed else s.twinkleSpeed;
    Star(x, s.y, alpha, speed)
  }

  /** Brightness that has left [0, 1] is back inside it on the next frame. */
  lemma {:induction false} OvershootReturns(s: Star, width: nat, r: real)
    requires Twinkling(s) && IsDraw(r)
    requires s.alpha > 1.0 || s.alpha < 0.0
    ensures 0.0 <= Twinkle(s, width, r).alpha <= 1.0
  {
  }

  /** One frame of the whole starfield, with one draw per star for the
      re-placement. */
  function TwinkleAll(stars: seq<Star>, width: nat, draws: seq<real>): (r: seq<Star>)
    requires |draws| == |stars|
    requires forall i :: 0 <= i < |draws| ==> IsDraw(draws[i])
    ensures |r| == |stars|
    ensures forall i :: 0 <= i < |r| ==> r[i] == Twinkle(stars[i], width, draws[i])
  {
    seq(|stars|, i requires 0 <= i < |stars| => Twinkle(stars[i], width, draws[i]))
  }
}
