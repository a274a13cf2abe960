/** Vertical motion of a musician: each frame it moves by its velocity;
    while still above the ground gravity adds to the velocity, otherwise
    it is put back on the ground at rest. */
module Physics {
  import opened Scene

  /** One frame of a musician's vertical motion. */
  function Step(m: Musician): (r: Musician)
    ensures r.y <= GroundY
    ensures r.x == m.x && r.note == m.note && r.key == m.key
    ensures m.y + m.vy < GroundY ==> r.y == m.y + m.vy && r.vy - m.vy == Gravity
    ensures m.y + m.vy >= GroundY ==> r.y == GroundY && r.vy == 0.0
    ensures r.y == GroundY <==> m.y + m.vy >= GroundY
  {
    var y := m.y + m.vy;
    if y < GroundY then m.(y := y, vy := m.vy + Gravity)
    else m.(y := GroundY, vy := 0.0)
  }

  /** One frame of motion for every musician. */
  function StepAll(ms: seq<Musician>): (r: seq<Musician>)
    ensures |r| == |ms|
    ensures forall i :: 0 <= i < |r| ==> r[i] == Step(ms[i])
  {
    seq(|ms|, i requires 0 <= i < |ms| => Step(ms[i]))
  }

  /** A musician at rest on the ground stays there. */
  lemma RestIsFixedPoint(m: Musician)
    requires m.y == GroundY && m.vy == 0.0
    ensures Step(m) == m
  {
  }

  /** The musician after n frames of motion. */
  function Fly(m: Musician, n: nat): Musician {
    if n == 0 then m else Step(Fly(m, n - 1))
  }

  /** Height of a musician k frames after jumping from the ground, while
      it is in the air. */
  function ArcY(k: int): real {
    GroundY - 8.0 * k as real + (k * (k - 1)) as real / 4.0
  }

  /** Velocity of a musician k frames after jumping from the ground, while
      it is in the air. */
  function ArcV(k: int): real {
    JumpVelocity + k as real / 2.0
  }

  /** One frame along the arc: moving by the velocity gives the next
      height, which is still above the ground up to frame 32. */
  lemma ArcStep(k: int)
    requires 1 <= k <= 32
    ensures ArcY(k - 1) + ArcV(k - 1) == ArcY(k)
    ensures ArcY(k) < GroundY
  {
    var j := k - 1;
    assert j * (j - 1) + 2 * j == k * (k - 1);
    assert (j * (j - 1)) as real / 4.0 + j as real / 2.0 == (k * (k - 1)) as real / 4.0;
    assert k * (k - 1) < 32 * k by {
      MulStrict(k, k - 1, 32);
    }
  }

  /** Where a musician that jumped from the ground is k frames later, while
      it is still in the air: height 260 - 8k + k(k-1)/4, velocity -8 + k/2. */
  lemma {:induction false} JumpArc(m: Musician, k: nat)
    requires m.y == GroundY && m.vy == JumpVelocity
    requires k <= 32
    ensures Fly(m, k).y == ArcY(k)
    ensures Fly(m, k).vy == ArcV(k)
  {
    if k > 0 {
      JumpArc(m, k - 1);
      ArcStep(k);
    }
  }

  /** Multiplying by a positive number keeps a strict order. */
  lemma MulStrict(a: nat, b: int, c: int)
    requires a > 0 && b < c
    ensures a * b < a * c
  {
  }

  /** A jump from the ground keeps the musician at least 8 units up for
      32 frames, so the trigger's 5-unit slack never lets it jump again in
      mid-air, and on the 33rd frame it is back on the ground at rest. */
  lemma {:induction false} JumpLandsAfter33Frames(m: Musician, k: nat)
    requires m.y == GroundY && m.vy == JumpVelocity
    ensures 1 <= k <= 32 ==> Fly(m, k).y <= GroundY - 8.0
    ensures Fly(m, 33).y == GroundY && Fly(m, 33).vy == 0.0
  {
    if 1 <= k <= 32 {
      JumpArc(m, k);
      assert k * (k - 1) <= 32 * (k - 1) by {
        MulMono(k - 1, k, 32);
      }
    }
    JumpArc(m, 32);
    assert ArcY(32) == 252.0;
  }

  /** Multiplying by a non-negative number keeps a weak order. */
  lemma MulMono(a: nat, b: int, c: int)
    requires b <= c
    ensures a * b <= a * c
  {
  }

  /** The states a musician can be in: on the ground at rest, on the ground
      just made to jump, or k frames into a jump for some k from 1 to 32. */
  predicate OnArc(m: Musician) {
    || (m.y == GroundY && (m.vy == 0.0 || m.vy == JumpVelocity))
    || exists k :: 1 <= k <= 32 && m.y == ArcY(k) && m.vy == ArcV(k)
  }

  /** Every point of the arc after the take-off is at least 8 units up. */
  lemma ArcHigh(k: int)
    requires 1 <= k <= 32
    ensures ArcY(k) <= GroundY - 8.0
  {
    assert k * (k - 1) <= 32 * (k - 1) by {
      MulMono(k - 1, k, 32);
    }
  }

  /** A frame of motion keeps a musician on the arc. */
  lemma StepKeepsOnArc(m: Musician)
    requires OnArc(m)
    ensures OnArc(Step(m))
  {
    if m.y == GroundY && m.vy == 0.0 {
    } else if m.y == GroundY && m.vy == JumpVelocity {
      assert Step(m).y == ArcY(1) && Step(m).vy == ArcV(1);
    } else {
      var k :| 1 <= k <= 32 && m.y == ArcY(k) && m.vy == ArcV(k);
      if k < 32 {
        ArcStep(k + 1);
        assert Step(m).y == ArcY(k + 1) && Step(m).vy == ArcV(k + 1);
      } else {
        assert m.y + m.vy == GroundY;
      }
    }
  }

  /** On the arc, a musician within the trigger's 5-unit slack of the
      ground is in fact on the ground. */
  lemma OnArcNearGroundIsGrounded(m: Musician)
    requires OnArc(m) && m.y >= TriggerGroundY - TriggerSlack
    ensures m.y == GroundY
  {
    if m.y != GroundY {
      var k :| 1 <= k <= 32 && m.y == ArcY(k) && m.vy == ArcV(k);
      ArcHigh(k);
    }
  }
}
