/** The state of the 8-bit header toy: seven musicians standing around a
    campfire, the fire's intensity, the fire's ember particles and a
    starfield.  Every quantity the browser keeps as a double is a `real`
    here; floating-point rounding is not modelled.
 */
module Scene {

  /** Logical height of the canvas element. */
  const CanvasHeight: real := 300.0

  /** Ground line used by the per-frame physics: the canvas height less 40. */
  const GroundY: real := CanvasHeight - 40.0

  /** Ground line written as a literal inside the trigger action; it only
      agrees with GroundY because the canvas is 300 units tall. */
  const TriggerGroundY: real := 260.0

  /** A musician can jump again when it is at most this far above TriggerGroundY. */
  const TriggerSlack: real := 5.0

  /** Vertical velocity given by a jump (negative is upwards). */
  const JumpVelocity: real := -8.0

  /** Added to the vertical velocity every frame while airborne. */
  const Gravity: real := 0.5

  const BaseIntensity: real := 1.0
  const MaxIntensity: real := 5.0
  const IntensityBoost: real := 1.5
  const DecayFactor: real := 0.98

  const MusicianCount: nat := 7
  const StarCount: nat := 80

  /** One step of the musical scale: the tone's frequency in Hz and the key
      that plays it (also drawn as the musician's label). */
  datatype Tone = Tone(note: real, key: char)

  /** The C major scale, one tone per musician, left to right. */
  const Scale: seq<Tone> := [
    Tone(261.63, '1'),
    Tone(293.66, '2'),
    Tone(329.63, '3'),
    Tone(349.23, '4'),
    Tone(392.00, '5'),
    Tone(440.00, '6'),
    Tone(493.88, '7')
  ]

  datatype Musician = Musician(x: real, y: real, vy: real, note: real, key: char)

  datatype Particle = Particle(x: real, y: real, vx: real, vy: real, life: real)

  datatype Star = Star(x: real, y: real, alpha: real, twinkleSpeed: real)

  datatype World = World(
    musicians: seq<Musician>,
    intensity: real,
    particles: seq<Particle>,
    stars: seq<Star>)

  /** What a user action produces: the new world and the frequencies of the
      notes it plays, in the order they are played. */
  datatype Effect = Effect(world: World, notes: seq<real>)

  datatype Option<T> = None | Some(value: T)

  /** A value `Math.random()` can return. */
  predicate IsDraw(r: real) {
    0.0 <= r < 1.0
  }

  function Abs(r: real): real {
    if r < 0.0 then -r else r
  }

  /** The musicians as the component first creates them: all at x = 0,
      standing on the ground, at rest, carrying the scale's tones. */
  function InitialMusicians(): (ms: seq<Musician>)
    ensures |ms| == MusicianCount
    ensures forall i :: 0 <= i < |ms| ==>
      ms[i].y == GroundY && ms[i].vy == 0.0 && ms[i].note == Scale[i].note && ms[i].key == Scale[i].key
  {
    seq(|Scale|, i requires 0 <= i < |Scale| => Musician(0.0, 260.0, 0.0, Scale[i].note, Scale[i].key))
  }

  /** The musicians still carry the scale's tones, in order. */
  predicate HasScale(ms: seq<Musician>) {
    |ms| == MusicianCount &&
    forall i :: 0 <= i < |ms| ==> ms[i].note == Scale[i].note && ms[i].key == Scale[i].key
  }
}
