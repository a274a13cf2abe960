/** The header as a whole: the world the component starts with, the
    per-frame update that the animation loop runs, and the invariant that
    every frame and every player action keeps. */
module Header {
  import opened Scene
  import Intensity
  import Layout
  import Physics
  import Sky
  import Particles
  import Input

  /** Everything that holds of the world between any two events. */
  predicate Invariant(w: World) {
    && HasScale(w.musicians)
    && (forall i :: 0 <= i < |w.musicians| ==> w.musicians[i].y <= GroundY)
    && (forall i :: 0 <= i < |w.musicians| ==> Physics.OnArc(w.musicians[i]))
    && Intensity.InRange(w.intensity)
    && Particles.AllAlive(w.particles)
    && (forall i :: 0 <= i < |w.stars| ==> Sky.Twinkling(w.stars[i]))
  }

  /** The world as the component sets it up: the musicians on the ground,
      the fire at its baseline, no embers, and eighty stars generated from
      the given draws across the window's width. */
  function Initial(draws: seq<Sky.StarDraw>, windowWidth: real): (w: World)
    requires |draws| == StarCount && windowWidth >= 0.0
    requires forall i :: 0 <= i < |draws| ==> Sky.ValidDraw(draws[i])
    ensures Invariant(w)
    ensures |w.stars| == StarCount && w.particles == [] && w.intensity == BaseIntensity
    ensures w.musicians == InitialMusicians()
  {
    var stars := seq(|draws|, i requires 0 <= i < |draws| => Sky.NewStar(draws[i], windowWidth));
    World(InitialMusicians(), BaseIntensity, [], stars)
  }

  /** The random draws one frame uses: one per star for re-placing stars
      past the right edge, and the spawn's three. */
  datatype FrameDraws = FrameDraws(starDraws: seq<real>, spawn: Particles.SpawnDraw)

  predicate ValidFrameDraws(w: World, d: FrameDraws) {
    && |d.starDraws| == |w.stars|
    && (forall i :: 0 <= i < |d.starDraws| ==> IsDraw(d.starDraws[i]))
    && Particles.ValidSpawnDraw(d.spawn)
  }

  /** One frame of the animation loop on a canvas `width` units wide, with
      `root` the square root of the decayed intensity: decay the fire, put
      the musicians in their slots, twinkle the stars, maybe spawn an
      ember, walk the embers, move the musicians. */
  function Render(w: World, width: nat, d: FrameDraws, root: real): (r: World)
    requires ValidFrameDraws(w, d)
    requires Particles.IsRoot(root, Intensity.Decay(w.intensity))
    ensures r.intensity == Intensity.Decay(w.intensity)
    ensures |r.musicians| == |w.musicians| && |r.stars| == |w.stars|
    ensures forall i :: 0 <= i < |r.musicians| ==>
      && r.musicians[i].x == Layout.Slot(width, i)
      && r.musicians[i].y <= GroundY
    ensures forall i :: 0 <= i < |r.musicians| ==>
      && r.musicians[i].y == Physics.Step(w.musicians[i]).y
      && r.musicians[i].vy == Physics.Step(w.musicians[i]).vy
      && r.musicians[i].note == w.musicians[i].note
      && r.musicians[i].key == w.musicians[i].key
    ensures forall i :: 0 <= i < |r.stars| ==> r.stars[i].x <= width as real
    ensures r.stars == Sky.TwinkleAll(w.stars, width, d.starDraws)
    ensures r.particles == Particles.Pass(
      Particles.Spawn(w.particles, width as real / 2.0, GroundY + 20.0, r.intensity, root, d.spawn),
      Particles.Burn(root))
    ensures |r.particles| <= |w.particles| + 1
  {
    var scale := Intensity.Decay(w.intensity);
    var placed := Layout.Place(w.musicians, width);
    var stars := Sky.TwinkleAll(w.stars, width, d.starDraws);
    var fireX := width as real / 2.0;
    var fireY := GroundY + 20.0;
    var spawned := Particles.Spawn(w.particles, fireX, fireY, scale, root, d.spawn);
    var embers := Particles.Pass(spawned, Particles.Burn(root));
    var musicians := Physics.StepAll(placed);
    World(musicians, scale, embers, stars)
  }

  /** A frame keeps the invariant. */
  lemma RenderKeepsInvariant(w: World, width: nat, d: FrameDraws, root: real)
    requires Invariant(w) && ValidFrameDraws(w, d)
    requires Particles.IsRoot(root, Intensity.Decay(w.intensity))
    ensures Invariant(Render(w, width, d, root))
  {
    Intensity.StepsKeepRange(w.intensity);
    forall i | 0 <= i < |w.musicians|
      ensures Physics.OnArc(Physics.Step(w.musicians[i]))
    {
      Physics.StepKeepsOnArc(w.musicians[i]);
    }
    var scale := Intensity.Decay(w.intensity);
    var spawned := Particles.Spawn(w.particles, width as real / 2.0, GroundY + 20.0, scale, root, d.spawn);
    assert Particles.AllAlive(spawned);
  }

  /** A trigger keeps the invariant. */
  lemma TriggerKeepsInvariant(w: World, index: int)
    requires Invariant(w)
    ensures Invariant(Input.Trigger(w, index).world)
  {
    Intensity.StepsKeepRange(w.intensity);
    if 0 <= index < |w.musicians| && w.musicians[index].y >= TriggerGroundY - TriggerSlack {
      Physics.OnArcNearGroundIsGrounded(w.musicians[index]);
    }
  }

  /** Between events a trigger plays a note exactly when its musician is on
      the ground: the guard's 5-unit slack never admits a musician in mid
      air, however frames and triggers have been interleaved. */
  lemma TriggerOnlyFromGround(w: World, index: int)
    requires Invariant(w)
    ensures |Input.Trigger(w, index).notes| == 1 <==> 0 <= index < |w.musicians| && w.musicians[index].y == GroundY
    ensures |Input.Trigger(w, index).notes| != 1 ==> Input.Trigger(w, index) == Effect(w, [])
  {
    if 0 <= index < |w.musicians| && w.musicians[index].y >= TriggerGroundY - TriggerSlack {
      Physics.OnArcNearGroundIsGrounded(w.musicians[index]);
    }
  }

  /** Any sequence of triggers keeps the invariant. */
  lemma {:induction false} TriggerAllKeepsInvariant(w: World, indices: seq<int>)
    requires Invariant(w)
    ensures Invariant(Input.TriggerAll(w, indices).world)
    decreases |indices|
  {
    if |indices| > 0 {
      TriggerKeepsInvariant(w, indices[0]);
      TriggerAllKeepsInvariant(Input.Trigger(w, indices[0]).world, indices[1..]);
    }
  }

  /** Key presses and clicks keep the invariant. */
  lemma ActionsKeepInvariant(w: World, key: string, clickX: real)
    requires Invariant(w)
    ensures Invariant(Input.HandleKey(w, key).world)
    ensures Invariant(Input.Click(w, clickX).world)
  {
    if Input.KeyIndex(key).Some? {
      TriggerKeepsInvariant(w, Input.KeyIndex(key).value);
    }
    TriggerAllKeepsInvariant(w, Input.Hits(w.musicians, clickX, 0));
  }

  /** After a frame has placed the musicians, a click plays at most two
      notes, and at most one on a canvas at least 450 units wide. */
  lemma ClickAfterFrame(w: World, width: nat, d: FrameDraws, root: real, clickX: real)
    requires Invariant(w) && ValidFrameDraws(w, d)
    requires Particles.IsRoot(root, Intensity.Decay(w.intensity))
    ensures |Input.Click(Render(w, width, d, root), clickX).notes| <= 2
    ensures width >= 450 ==> |Input.Click(Render(w, width, d, root), clickX).notes| <= 1
  {
    var r := Render(w, width, d, root);
    Input.ClickPlaysAtMostTwo(r, width, clickX);
  }

  /** A musician that jumped from the ground cannot be made to jump again
      during the 32 frames it is in the air: every trigger in that time is
      ignored. */
  lemma NoJumpInMidAir(w: World, index: int, k: nat)
    requires 0 <= index < |w.musicians| && 1 <= k <= 32
    requires w.musicians[index].y == GroundY && w.musicians[index].vy == JumpVelocity
    ensures var v := w.(musicians := w.musicians[index := Physics.Fly(w.musicians[index], k)]);
            Input.Trigger(v, index) == Effect(v, [])
  {
    Physics.JumpLandsAfter33Frames(w.musicians[index], k);
  }

  /** The canvas widths, draws and square roots a run of frames is given
      are valid: one of each per frame, each frame's draws fit the world it
      starts from, and each root is the square root of that frame's decayed
      intensity. The width may change from frame to frame, as the canvas is
      re-sized to its parent on every frame. */
  predicate ValidRun(w: World, widths: seq<nat>, ds: seq<FrameDraws>, roots: seq<real>)
    decreases |ds|, 0
  {
    && |ds| == |roots| && |ds| == |widths|
    && (|ds| > 0 ==>
      var k := |ds| - 1;
      && ValidRun(w, widths[..k], ds[..k], roots[..k])
      && var v := Run(w, widths[..k], ds[..k], roots[..k]);
         ValidFrameDraws(v, ds[k]) && Particles.IsRoot(roots[k], Intensity.Decay(v.intensity)))
  }

  /** The animation loop: the world after one frame per entry of `ds`, in
      order, frame k drawn on a canvas `widths[k]` wide. */
  function Run(w: World, widths: seq<nat>, ds: seq<FrameDraws>, roots: seq<real>): (r: World)
    requires ValidRun(w, widths, ds, roots)
    ensures |r.musicians| == |w.musicians| && |r.stars| == |w.stars|
    decreases |ds|, 1
  {
    if |ds| == 0 then w
    else
      var k := |ds| - 1;
      Render(Run(w, widths[..k], ds[..k], roots[..k]), widths[k], ds[k], roots[k])
  }

  /** Any run of frames keeps the invariant. */
  lemma {:induction false} RunKeepsInvariant(w: World, widths: seq<nat>, ds: seq<FrameDraws>, roots: seq<real>)
    requires Invariant(w) && ValidRun(w, widths, ds, roots)
    ensures Invariant(Run(w, widths, ds, roots))
  {
    if |ds| > 0 {
      var k := |ds| - 1;
      RunKeepsInvariant(w, widths[..k], ds[..k], roots[..k]);
      RenderKeepsInvariant(Run(w, widths[..k], ds[..k], roots[..k]), widths[k], ds[k], roots[k]);
    }
  }

  /** Across any run of frames every musician moves exactly as the
      vertical motion alone prescribes: the frames' layout, stars and
      embers never disturb its height or velocity. */
  lemma {:induction false} RunFollowsFly(w: World, widths: seq<nat>, ds: seq<FrameDraws>, roots: seq<real>, i: int)
    requires ValidRun(w, widths, ds, roots) && 0 <= i < |w.musicians|
    ensures Run(w, widths, ds, roots).musicians[i].y == Physics.Fly(w.musicians[i], |ds|).y
    ensures Run(w, widths, ds, roots).musicians[i].vy == Physics.Fly(w.musicians[i], |ds|).vy
  {
    if |ds| > 0 {
      var k := |ds| - 1;
      RunFollowsFly(w, widths[..k], ds[..k], roots[..k], i);
    }
  }

  /** A musician that jumps from the ground follows the jump arc through
      the render loop: it ignores every trigger for 32 frames and is back
      on the ground at rest on the 33rd. */
  lemma JumpThroughFrames(w: World, widths: seq<nat>, ds: seq<FrameDraws>, roots: seq<real>, i: int)
    requires ValidRun(w, widths, ds, roots) && 0 <= i < |w.musicians|
    requires w.musicians[i].y == GroundY && w.musicians[i].vy == JumpVelocity
    requires 1 <= |ds| <= 33
    ensures |ds| <= 32 ==> Run(w, widths, ds, roots).musicians[i].y == Physics.ArcY(|ds|)
    ensures |ds| <= 32 ==> Input.Trigger(Run(w, widths, ds, roots), i).notes == []
    ensures |ds| == 33 ==> Run(w, widths, ds, roots).musicians[i].y == GroundY
    ensures |ds| == 33 ==> Run(w, widths, ds, roots).musicians[i].vy == 0.0
  {
    RunFollowsFly(w, widths, ds, roots, i);
    Physics.JumpLandsAfter33Frames(w.musicians[i], |ds|);
    if |ds| <= 32 {
      Physics.JumpArc(w.musicians[i], |ds|);
    }
  }

  /** Before the first frame every musician still stands at x = 0, so a
      click there hits all seven and plays all seven notes; only once a
      frame has put them in their slots does a click hit at most two. */
  lemma ClickBeforeFirstFrame()
    ensures |Input.Click(World(InitialMusicians(), BaseIntensity, [], []), 0.0).notes| == MusicianCount
  {
    Input.ClickPlaysEveryGrounded(World(InitialMusicians(), BaseIntensity, [], []), 0.0, 0);
  }
}
