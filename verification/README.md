# PixelHeader: a verified model of the 8-bit campfire header

The landing page's header is a canvas toy. Seven musicians stand in a row around a campfire under a starry sky. Pressing keys 1 to 7, or clicking on a musician, makes that musician jump and play its note of the C major scale. Every note feeds the fire: its intensity rises by 1.5, capped at 5. Each frame the intensity decays by 2% back towards 1. The fire's embers are spawned, moved, burnt down and removed every frame. Stars twinkle.

This project models that toy as pure functions over an immutable world. The world holds the musicians (`x`, `y`, `vy`, note, key), the fire intensity, the embers (`x`, `y`, `vx`, `vy`, `life`) and the stars (`x`, `y`, `alpha`, `twinkleSpeed`). The model proves the toy's arithmetic promises:

- a trigger is guarded and capped;
- the key handler picks exactly keys 1 to 7;
- once a frame has placed the musicians, a click hits at most two neighbouring ones;
- the layout is clamped, centred, symmetric and evenly spaced;
- the intensity stays within (0.98, 5], and left alone it is back at exactly 1 within 81 frames;
- musicians never sink below the ground and land at rest;
- a jump lasts 32 frames in the air; every musician stays on the jump arc however frames and triggers interleave, so a trigger plays only for a musician on the ground and no mid-air re-jump is possible;
- the ember walk keeps only live embers, and it skips the ember after each removed one;
- stars twinkle within one step of [0, 1].

Modules, one file each:

- `Scene` (scene.dfy): constants, the scale table, the datatypes, the initial musicians.
- `Intensity` (intensity.dfy): the trigger boost and the per-frame decay.
- `Layout` (layout.dfy): the gap and slots, eye direction, shadow scale, click hit bands.
- `Physics` (physics.dfy): a musician's vertical motion and the jump arc.
- `Sky` (sky.dfy): star generation and twinkling.
- `Particles` (particles.dfy): ember spawn, burn rate, the walk with splicing, and its per-ember reference rule.
- `Input` (input.dfy): the trigger action, JavaScript's `parseInt` and the key handler, and the click handler.
- `Header` (header.dfy): the initial world, one frame of the render loop, and the world invariant kept by frames and actions.

Browser numbers are doubles; the model uses `real`, so IEEE-754 rounding is not modelled. The model takes these as parameters:

- every `Math.random()` draw, as a real in [0, 1);
- the square root of the intensity, as `root` with `root > 0` and `root * root == intensity`;
- the canvas width, as a `nat`;
- the click's canvas x-coordinate, as a real.

The audio a trigger plays is the `notes` list of an `Effect`.

Four behaviours of the code that are easy to misread:

- The intensity can drop below the baseline of 1 for one frame: 0.98 × 1.01 < 1. It is reset to 1 only on the frame after. See `Intensity.DipsBelowBaselineForOneFrame`.
- Not every ember loses life on every frame of its existence. The ember right after a removed one is skipped for that frame. See `Particles.SkippedEmberKeepsItsLife`.
- A click does not pick the nearest musician. It triggers every musician whose 50-unit band contains it. With a gap under 50 that can be two neighbours.
- Before the first frame every musician stands at x = 0, so a click near the left edge plays all seven notes. Only the first frame puts them in their slots. See `Header.ClickBeforeFirstFrame`.

## Model

| member | source | states |
|---|---|---|
| Scene.InitialMusicians | components/PixelHeader.tsx:8-27 | seven musicians start on the ground at y = 260, at rest, carrying the scale's notes and keys in order |
| Intensity.Boost | components/PixelHeader.tsx:64-66 | a successful trigger raises the intensity by 1.5, never above 5; if 1.5 more would stay within 5, it adds exactly 1.5 |
| Intensity.Decay | components/PixelHeader.tsx:140-146 | above 1 the intensity strictly falls but stays above 0.98; at or below 1 it becomes exactly 1 |
| Intensity.StepsKeepRange | components/PixelHeader.tsx:140-146 | the boost and the decay both keep the intensity in (0.98, 5]; after a decay it is at most 4.9 |
| Intensity.DipsBelowBaselineForOneFrame | components/PixelHeader.tsx:141-145 | 1.01 decays below 1, and the next frame resets it to exactly 1 |
| Intensity.UndisturbedDecay | components/PixelHeader.tsx:140-146 | across any number of frames without triggers the intensity stays in (0.98, 5] and strictly falls while above 1 |
| Intensity.BaselineIsAbsorbing | components/PixelHeader.tsx:141-145 | once at or below 1, every later undisturbed frame has the intensity exactly 1 |
| Intensity.DecayBelowPow | components/PixelHeader.tsx:140-146 | until the intensity reaches the baseline, n undisturbed frames shrink it at least by the factor 0.98 to the n-th power |
| Intensity.ReturnsToBaseline | components/PixelHeader.tsx:140-146 | from anywhere in (0.98, 5], the intensity is exactly 1 on every undisturbed frame from the 81st on |
| Layout.Gap | components/PixelHeader.tsx:148-153 | the gap lies in [30, 50] and equals width/9 whenever width/9 already lies there |
| Layout.GapIsClosestAllowed | components/PixelHeader.tsx:148-153 | of all gaps in [30, 50], the clamp picks one closest to width/9 |
| Layout.Slot | components/PixelHeader.tsx:156-158 | a musician stands left of the canvas centre exactly when its index is below 3 and right of it exactly when its index is above 3 |
| Layout.Place | components/PixelHeader.tsx:155-159 | every musician gets its slot for the width and changes in nothing else |
| Layout.SlotsSymmetricAndEven | components/PixelHeader.tsx:137-159 | the middle slot is the canvas centre, slot i and slot 6-i add up to the width, and neighbouring slots are one gap apart |
| Layout.SlotsUnique | components/PixelHeader.tsx:137-159 | seven positions centred on the canvas and spaced by the gap are exactly the slots |
| Layout.ResizeKeepsLayout | components/PixelHeader.tsx:148-159 | at width 800 the gap is the maximum 50, at width 400 it is 400/9, and both layouts are centred and symmetric |
| Layout.LookDir | components/PixelHeader.tsx:241 | the eye offset is positive exactly for the three left musicians and negative exactly for the three right ones |
| Layout.LooksTowardFire | components/PixelHeader.tsx:240-241 | every musician except the middle one looks towards the centre slot, where the fire is |
| Layout.ShadowScale | components/PixelHeader.tsx:259-266 | a shadow is drawn exactly when the musician is airborne and less than 100 units up, with a scale strictly between 0 and 1 |
| Layout.ShadowShrinksWithHeight | components/PixelHeader.tsx:262 | the higher the musician, the smaller its shadow |
| Layout.Hit | components/PixelHeader.tsx:96 | a click hits a musician exactly when it lies strictly within 25 units of the musician's x on either side |
| Layout.HitZonesOnlyNeighboursOverlap | components/PixelHeader.tsx:94-99 | with the musicians in their slots, two musicians hit by one click are neighbours, and this needs a gap below 50 |
| Physics.Step | components/PixelHeader.tsx:223-230 | after a frame y never exceeds the ground; if still above ground, y moved by vy and vy grew by exactly 0.5; otherwise y is the ground and vy is exactly 0 |
| Physics.StepAll | components/PixelHeader.tsx:222-230 | every musician takes its own frame of motion, independently of the others |
| Physics.RestIsFixedPoint | components/PixelHeader.tsx:224-230 | a musician at rest on the ground stays there |
| Physics.JumpArc | components/PixelHeader.tsx:224-230 | k frames after a jump from the ground, for k up to 32, y is 260 - 8k + k(k-1)/4 and vy is -8 + k/2 |
| Physics.ArcStep | components/PixelHeader.tsx:224-230 | one frame of motion moves a jumping musician from arc point k-1 to arc point k, which is still above the ground up to frame 32 |
| Physics.JumpLandsAfter33Frames | components/PixelHeader.tsx:224-230 | a jump keeps the musician at least 8 units up for frames 1 to 32, and on frame 33 it is on the ground at rest |
| Physics.ArcHigh | components/PixelHeader.tsx:224-230 | every point of the jump arc after take-off is at least 8 units above the ground |
| Physics.StepKeepsOnArc | components/PixelHeader.tsx:224-230 | a frame of motion keeps a musician that is at rest, taking off, or k frames into a jump in one of those states |
| Physics.OnArcNearGroundIsGrounded | components/PixelHeader.tsx:57-61 | a musician on the jump arc that passes the trigger's y >= 255 test is exactly on the ground |
| Sky.NewStar | components/PixelHeader.tsx:113-122 | a new star lies within the window width and the top 200 units, with brightness in [0, 1) and speed in [0.01, 0.06), and it satisfies the twinkle invariant |
| Sky.Twinkle | components/PixelHeader.tsx:174-180 | a star past the right edge is moved back within the width; the brightness moves by the speed; the speed keeps its magnitude and flips sign exactly when the new brightness is outside [0, 1]; the twinkle invariant is kept |
| Sky.OvershootReturns | components/PixelHeader.tsx:178-179 | brightness that has left [0, 1] is back inside it on the next frame |
| Sky.TwinkleAll | components/PixelHeader.tsx:174-180 | every star in the field is twinkled with its own draw |
| Particles.Ember | components/PixelHeader.tsx:198-206 | a spawned ember has life 1 and sits at the fire's height, within 15 units per unit of intensity of the fire; it drifts by less than 1.5 root sideways, and rises with vy squared equal to 6.25 times the intensity |
| Particles.Spawn | components/PixelHeader.tsx:196-206 | with a draw below 0.3 times the intensity, exactly one new ember is appended after the old list; otherwise the list is unchanged |
| Particles.Burn | components/PixelHeader.tsx:211 | the life lost per frame is positive, and times the square root of the intensity it is 0.04 |
| Particles.Advance | components/PixelHeader.tsx:209-211 | a visited ember moves by its velocity and loses exactly the burn in life |
| Particles.Pass | components/PixelHeader.tsx:208-219 | the walk never lengthens the list, and if every ember had life before, every ember left has life after |
| Particles.Fates | components/PixelHeader.tsx:208-213 | the fates follow the rule: an ember is skipped exactly when the one before it was removed, and a visited ember is removed exactly when its burnt-down life is not positive |
| Particles.FatesUnique | components/PixelHeader.tsx:208-213 | the rule determines the fates completely |
| Particles.PassFollowsFates | components/PixelHeader.tsx:208-219 | the walk's result is exactly: advanced embers in their new state, removed ones gone, skipped ones untouched, in order |
| Particles.NoBurnOutAdvancesAll | components/PixelHeader.tsx:208-213 | when no visited ember burns out, the walk advances every ember and removes none |
| Particles.SkippedEmberKeepsItsLife | components/PixelHeader.tsx:208-213 | the ember after a burnt-out one stays in the list with its life unchanged for that frame |
| Particles.Size | components/PixelHeader.tsx:216 | a drawn ember is at least 1 unit, and at least life × 6 × intensity |
| Particles.WalkWithSplice | components/PixelHeader.tsx:208-219 | the literal walk ends with the same list as the recursive pass; it runs an index over the original length and splices burnt-out embers at the index |
| Particles.SpliceStep | components/PixelHeader.tsx:213 | splicing out a burnt-out ember at the index and moving on does not change the walk's outcome |
| Particles.SpliceBeforeMore | components/PixelHeader.tsx:213 | splicing out a burnt-out ember that is followed by another one makes the walk skip that next ember, and the outcome stays the same |
| Particles.AdvanceStep | components/PixelHeader.tsx:209-211 | advancing a live ember in place and moving on does not change the walk's outcome |
| Input.Trigger | components/PixelHeader.tsx:56-68 | no-op unless the index names a musician with y >= 255; otherwise only that musician changes: its vy becomes -8. Its note is played once, and the intensity is boosted |
| Input.TriggerAll | components/PixelHeader.tsx:94-99 | a series of triggers plays at most one note per trigger and keeps the number of musicians |
| Input.TrimStart | components/PixelHeader.tsx:74 | parseInt's white-space skip leaves a string that does not start with white space |
| Input.TrimStartDropsSpace | components/PixelHeader.tsx:74 | the skip removes only white space, and only at the front |
| Input.ParseUnsigned | components/PixelHeader.tsx:74 | the unsigned part of parseInt never reads a negative number |
| Input.ParseSigned | components/PixelHeader.tsx:74 | after the white space, parseInt finds a number only behind a sign or a digit, and the result is negative only behind a minus |
| Input.ParseInt | components/PixelHeader.tsx:74 | parseInt of the empty string is NaN; leading white space is skipped; a string starting with anything but white space, a sign or a digit is NaN |
| Input.ParseRun | components/PixelHeader.tsx:74 | a digit run reads as NaN exactly when the string does not start with a digit, and otherwise as a non-negative number |
| Input.ParseUnsignedOfDigits | components/PixelHeader.tsx:74 | a string made only of decimal digits is read whole, as the number its digits spell |
| Input.ParseUnsignedReadsDecimal | components/PixelHeader.tsx:74 | the unsigned reader reads a decimal numeral back as its number |
| Input.ParseIntOfDigitFirst | components/PixelHeader.tsx:74 | parseInt of a string starting with a digit is its unsigned reading, and a leading minus negates it |
| Input.ParseIntReadsDecimal | components/PixelHeader.tsx:74 | parseInt reads the numeral of n back as n, and a leading minus as -n |
| Input.KeyIndex | components/PixelHeader.tsx:72-78 | a key names a musician exactly when parseInt reads it as 1 to 7, and then it names musician parseInt - 1 |
| Input.SingleKeyIndex | components/PixelHeader.tsx:72-78 | a one-character key names a musician exactly when it is 1 to 7, and then musician key - 1, so 0, 8, 9 and every other character name none |
| Input.NamedKeysIgnored | components/PixelHeader.tsx:72-78 | a key name starting with a letter (Enter, F5, ArrowUp, ...) names no musician |
| Input.NumeralKeys | components/PixelHeader.tsx:72-78 | the numeral of n names a musician exactly for n from 1 to 7, and then musician n - 1 |
| Input.HandleKey | components/PixelHeader.tsx:72-78 | a key that names a musician triggers exactly that musician; any other key changes nothing and plays nothing |
| Input.Hits | components/PixelHeader.tsx:94-99 | the hits are exactly the musicians whose band of half-width 25 contains the click, in increasing order |
| Input.ClickFrom | components/PixelHeader.tsx:94-99 | the click handler's walk equals triggering the hit musicians one after another |
| Input.Click | components/PixelHeader.tsx:85-100 | a click triggers exactly the musicians whose band contains it, left to right, and plays at most one note per hit musician |
| Input.HitsFollowX | components/PixelHeader.tsx:94-99 | which musicians are hit depends only on their horizontal positions |
| Input.XsUnchanged | components/PixelHeader.tsx:56-68 | a trigger never moves a musician horizontally, so it does not disturb the rest of the click's hit tests |
| Input.ClickPlaysAtMostTwo | components/PixelHeader.tsx:94-99 | with the musicians in their slots a click plays at most two notes, and at most one once the gap is 50 |
| Input.ClickPlaysEveryGrounded | components/PixelHeader.tsx:94-99 | when every musician stands within the click's band and passes the trigger's ground test, the click plays one note for each |
| Input.GroundLinesAgree | components/PixelHeader.tsx:57 | the trigger's literal ground line 260 equals the physics' ground line, the canvas height less 40 |
| Input.SlackAllowsNearGroundJump | components/PixelHeader.tsx:60 | the y >= 255 guard on its own admits a musician 3 units above the ground, still moving, and makes it jump again; that the toy never reaches such a state is the separate Header.TriggerOnlyFromGround |
| Input.ThreeQuickTriggers | components/PixelHeader.tsx:56-68 | three quick triggers of the first musician from intensity 1 play its note three times and leave the intensity at the cap 5 |
| Header.Initial | components/PixelHeader.tsx:113-124 | the initial world has the initial musicians (on the ground, at rest, at x = 0), 80 stars, no embers, intensity 1, and satisfies the invariant |
| Header.Render | components/PixelHeader.tsx:126-282 | one frame decays the intensity; puts every musician in its slot and gives it exactly the height and velocity of one frame of motion, keeping note and key; twinkles every star, keeping it within the width; and walks the embers after the spawn with the burn for the new intensity, so adds at most one |
| Header.RenderKeepsInvariant | components/PixelHeader.tsx:126-230 | a frame keeps the invariant: the scale roster, musicians on or above the ground and on the jump arc, intensity in (0.98, 5], only live embers, twinkling stars |
| Header.TriggerKeepsInvariant | components/PixelHeader.tsx:56-68 | a trigger keeps the invariant |
| Header.TriggerOnlyFromGround | components/PixelHeader.tsx:56-68 | between events, a trigger plays a note exactly when its musician is on the ground, and otherwise changes nothing |
| Header.TriggerAllKeepsInvariant | components/PixelHeader.tsx:94-99 | any series of triggers keeps the invariant |
| Header.ActionsKeepInvariant | components/PixelHeader.tsx:72-99 | key presses and clicks keep the invariant |
| Header.ClickAfterFrame | components/PixelHeader.tsx:94-159 | after a frame, a click plays at most two notes, and at most one on a canvas at least 450 units wide |
| Header.ClickBeforeFirstFrame | components/PixelHeader.tsx:19-27 | before the first frame, with every musician at x = 0, a click at 0 plays all seven notes |
| Header.NoJumpInMidAir | components/PixelHeader.tsx:57-61 | for the 32 frames after a jump from the ground, triggering that musician changes nothing |
| Header.RunKeepsInvariant | components/PixelHeader.tsx:126-282 | any run of frames keeps the world invariant, whatever the canvas width of each frame |
| Header.Run | components/PixelHeader.tsx:126-284 | the animation loop renders frame after frame, each at its own canvas width, and keeps the number of musicians and of stars |
| Header.RunFollowsFly | components/PixelHeader.tsx:222-230 | across any run of frames, whatever the canvas width of each frame, each musician's height and velocity are exactly those of its vertical motion alone |
| Header.JumpThroughFrames | components/PixelHeader.tsx:56-230 | a musician that jumps from the ground follows the jump arc through the render loop, whatever the canvas width of each frame, ignores every trigger for 32 frames, and is on the ground at rest after 33 |

## Left out

- Sound synthesis (`playNote`, components/PixelHeader.tsx:30-53): the Web Audio API is a browser service. A trigger only reports the note's frequency in `Effect.notes`.
- Drawing: the canvas calls, colours, fonts, the help text, the moon and `imageSmoothingEnabled` have no behaviour to state. The model computes only the numbers drawing uses: shadow scale, eye offset, ember size.
- The musicians' colours and solfège labels (`color`, `label` in the scale table) are used only for drawing.
- React and DOM plumbing are host I/O and scheduling: refs, effects, the listener registration and removal, `requestAnimationFrame` and its cancellation, and the early returns when the canvas or its context is missing. Also left out is reading the canvas width from the parent element and the click's `getBoundingClientRect` scaling. The width and the click's canvas x-coordinate are inputs.
- `Math.random()` and `Math.sqrt`: every draw is a parameter in [0, 1). The square root of the intensity is a parameter `root` with `root * root` equal to the intensity.
- Input.Trigger: takes an integer index. JavaScript would also accept a fractional number, which names no musician; both callers pass integers.
- Input.ParseInt: a numeral too long for a double is read exactly instead of rounded. This never changes whether the result lies in 1 to 7.
- Intensity.Decay: works on exact reals, so IEEE-754 rounding of the repeated 0.98 multiplication is not modelled.
- The rest of the page: the layout, the buttons, the CSS flames and the decorative particle field are static markup with no state transitions.
