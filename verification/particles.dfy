/** The campfire's embers.  Each frame a new ember may be spawned at the
    fire, then every ember in the list is moved and burns down, and an ember
    whose life has run out is spliced out of the list while the list is
    being walked.  Splicing during the walk shifts the following ember into
    the slot just visited, so that ember is passed over for the frame: it
    is neither moved nor burnt down nor drawn. */
module Particles {
  import opened Scene

  /** Chance, per unit of intensity, that a frame spawns an ember. */
  const SpawnRate: real := 0.3

  /** Life an ember loses per frame at the baseline intensity. */
  const BurnRate: real := 0.04

  /** The random draws one frame's spawn uses: whether to spawn, the
      horizontal spread, the horizontal drift. */
  datatype SpawnDraw = SpawnDraw(chance: real, spread: real, drift: real)

  predicate ValidSpawnDraw(d: SpawnDraw) {
    IsDraw(d.chance) && IsDraw(d.spread) && IsDraw(d.drift)
  }

  /** `root` stands for the square root of the fire intensity `scale`. */
  predicate IsRoot(root: real, scale: real) {
    root > 0.0 && root * root == scale
  }

  /** A newly spawned ember: full of life, at the fire's height, spread
      around the fire by up to 15 units per unit of intensity, drifting
      sideways and rising at speeds proportional to the square root of the
      intensity. */
  function Ember(fireX: real, fireY: real, scale: real, root: real, d: SpawnDraw): (q: Particle)
    requires ValidSpawnDraw(d) && IsRoot(root, scale)
    ensures q.life == 1.0 && q.y == fireY
    ensures fireX - 15.0 * scale <= q.x < fireX + 15.0 * scale
    ensures -1.5 * root <= q.vx < 1.5 * root
    ensures q.vy < 0.0 && q.vy * q.vy == 6.25 * scale
  {
    RiseSpeed(root, scale);
    SpreadBounds(d.spread, scale);
    DriftBounds(d.drift, root);
    Particle(
      fireX + (d.spread * 30.0 - 15.0) * scale,
      fireY,
      (d.drift - 0.5) * 3.0 * root,
      -2.5 * root,
      1.0)
  }

  /** The horizontal spread of a new ember stays within 15 units per unit of intensity of the fire. */
  lemma SpreadBounds(r: real, scale: real)
    requires IsDraw(r) && scale > 0.0
    ensures -15.0 * scale <= (r * 30.0 - 15.0) * scale < 15.0 * scale
  {
    assert (r * 30.0 - 15.0) * scale == r * (30.0 * scale) - 15.0 * scale;
    assert r * (30.0 * scale) < 30.0 * scale by {
      assert (1.0 - r) * (30.0 * scale) > 0.0;
    }
  }

  /** The sideways drift of a new ember stays within 1.5 times the root. */
  lemma DriftBounds(r: real, root: real)
    requires IsDraw(r) && root > 0.0
    ensures -1.5 * root <= (r - 0.5) * 3.0 * root < 1.5 * root
  {
    assert (r - 0.5) * 3.0 * root == r * (3.0 * root) - 1.5 * root;
    assert r * (3.0 * root) < 3.0 * root by {
      assert (1.0 - r) * (3.0 * root) > 0.0;
    }
  }

  /** The rise speed squared is 6.25 times the intensity, which is positive. */
  lemma RiseSpeed(root: real, scale: real)
    requires IsRoot(root, scale)
    ensures (-2.5 * root) * (-2.5 * root) == 6.25 * scale
    ensures scale > 0.0
  {
    calc {
      scale;
    ==
      root * root;
    >
      0.0;
    }
  }

  /** The spawn step: with chance SpawnRate * scale a new ember is appended
      to the list, otherwise the list is left as it is. */
  function Spawn(ps: seq<Particle>, fireX: real, fireY: real, scale: real, root: real, d: SpawnDraw): (r: seq<Particle>)
    requires ValidSpawnDraw(d) && IsRoot(root, scale)
    ensures d.chance < SpawnRate * scale ==>
      |r| == |ps| + 1 && r[..|ps|] == ps && r[|ps|] == Ember(fireX, fireY, scale, root, d)
    ensures d.chance >= SpawnRate * scale ==> r == ps
  {
    if d.chance < SpawnRate * scale then ps + [Ember(fireX, fireY, scale, root, d)] else ps
  }

  /** How much life an ember loses this frame: the higher the intensity,
      the slower embers burn down. */
  function Burn(root: real): (dec: real)
    requires root > 0.0
    ensures dec > 0.0
    ensures dec * root == BurnRate
  {
    BurnRate / root
  }

  /** One frame of an ember that is visited: it moves by its velocity and
      burns down by dec. */
  function Advance(p: Particle, dec: real): (q: Particle)
    ensures q.vx == p.vx && q.vy == p.vy
    ensures q.x - p.x == p.vx && q.y - p.y == p.vy && p.life - q.life == dec
  {
    p.(y := p.y + p.vy, x := p.x + p.vx, life := p.life - dec)
  }

  predicate AllAlive(ps: seq<Particle>) {
    forall i :: 0 <= i < |ps| ==> ps[i].life > 0.0
  }

  /** The walk over the ember list.  The head is advanced; if it still has
      life it stays, otherwise it is removed and the ember after it is kept
      exactly as it was, unvisited. */
  function Pass(ps: seq<Particle>, dec: real): (r: seq<Particle>)
    ensures |r| <= |ps|
    ensures AllAlive(ps) ==> AllAlive(r)
    decreases |ps|
  {
    if |ps| == 0 then []
    else
      var p := Advance(ps[0], dec);
      if p.life > 0.0 then [p] + Pass(ps[1..], dec)
      else if |ps| == 1 then []
      else [ps[1]] + Pass(ps[2..], dec)
  }

  /** What happens to one ember during the walk. */
  datatype Fate = Advanced | Removed | Skipped

  /** The rule that decides the fates, one index at a time: an ember is
      skipped exactly when the one before it was removed; an ember that is
      visited is removed exactly when its life after burning is not
      positive. */
  predicate FollowsRule(ps: seq<Particle>, dec: real, f: seq<Fate>) {
    && |f| == |ps|
    && (|f| > 0 ==> f[0] != Skipped)
    && (forall i :: 0 < i < |f| ==> (f[i] == Skipped <==> f[i - 1] == Removed))
    && (forall i :: 0 <= i < |f| && f[i] != Skipped ==>
          (f[i] == Removed <==> Advance(ps[i], dec).life <= 0.0))
  }

  /** The fates of all embers in one walk. */
  function Fates(ps: seq<Particle>, dec: real): (f: seq<Fate>)
    ensures FollowsRule(ps, dec, f)
    decreases |ps|
  {
    if |ps| == 0 then []
    else if Advance(ps[0], dec).life > 0.0 then [Advanced] + Fates(ps[1..], dec)
    else if |ps| == 1 then [Removed]
    else [Removed, Skipped] + Fates(ps[2..], dec)
  }

  /** The rule leaves no freedom: it determines every fate. */
  lemma {:induction false} FatesUnique(ps: seq<Particle>, dec: real, f: seq<Fate>)
    requires FollowsRule(ps, dec, f)
    ensures f == Fates(ps, dec)
    decreases |ps|
  {
    if |ps| > 0 {
      var g := Fates(ps, dec);
      assert f[0] != Skipped;
      if Advance(ps[0], dec).life > 0.0 {
        assert f[0] == Advanced;
        ShiftRule(ps, dec, f, 1);
        FatesUnique(ps[1..], dec, f[1..]);
        assert f == [f[0]] + f[1..];
      } else if |ps| == 1 {
        assert f == [Removed];
      } else {
        assert f[0] == Removed && f[1] == Skipped;
        assert f[2..] == [] || f[2] != Skipped;
        ShiftRule(ps, dec, f, 2);
        FatesUnique(ps[2..], dec, f[2..]);
        assert f == [f[0], f[1]] + f[2..];
      }
    }
  }

  /** A suffix of fates that starts on a visited ember follows the rule. */
  lemma ShiftRule(ps: seq<Particle>, dec: real, f: seq<Fate>, n: nat)
    requires FollowsRule(ps, dec, f)
    requires n <= |ps|
    requires n < |ps| ==> f[n] != Skipped
    ensures FollowsRule(ps[n..], dec, f[n..])
  {
    var g := f[n..];
    forall i | 0 < i < |g|
      ensures g[i] == Skipped <==> g[i - 1] == Removed
    {
      assert g[i] == f[n + i] && g[i - 1] == f[n + i - 1];
    }
  }

  /** The ember list the fates leave behind: advanced embers in their new
      state, removed ones gone, skipped ones unchanged. */
  function Survivors(ps: seq<Particle>, dec: real, f: seq<Fate>): seq<Particle>
    requires |f| == |ps|
    decreases |ps|
  {
    if |ps| == 0 then []
    else
      var head := match f[0]
        case Advanced => [Advance(ps[0], dec)]
        case Removed => []
        case Skipped => [ps[0]];
      head + Survivors(ps[1..], dec, f[1..])
  }

  /** The walk removes exactly the embers the rule removes, leaves the
      skipped ones untouched and advances the rest, in order. */
  lemma {:induction false} PassFollowsFates(ps: seq<Particle>, dec: real)
    ensures Pass(ps, dec) == Survivors(ps, dec, Fates(ps, dec))
    decreases |ps|
  {
    if |ps| > 0 {
      var f := Fates(ps, dec);
      if Advance(ps[0], dec).life > 0.0 {
        PassFollowsFates(ps[1..], dec);
        assert f[1..] == Fates(ps[1..], dec);
      } else if |ps| > 1 {
        PassFollowsFates(ps[2..], dec);
        assert f[1..][1..] == Fates(ps[2..], dec);
        assert ps[1..][1..] == ps[2..];
      }
    }
  }

  /** When no visited ember burns out, the walk advances every ember and
      removes none. */
  lemma {:induction false} NoBurnOutAdvancesAll(ps: seq<Particle>, dec: real)
    requires forall i :: 0 <= i < |ps| ==> Advance(ps[i], dec).life > 0.0
    ensures |Pass(ps, dec)| == |ps|
    ensures forall i :: 0 <= i < |ps| ==> Pass(ps, dec)[i] == Advance(ps[i], dec)
    decreases |ps|
  {
    if |ps| > 0 {
      NoBurnOutAdvancesAll(ps[1..], dec);
      assert forall i :: 1 <= i < |ps| ==> Pass(ps, dec)[i] == Pass(ps[1..], dec)[i - 1];
    }
  }

  /** An ember right behind a burnt-out one keeps its life for the frame:
      an ember does not burn down on every frame of its existence. */
  lemma SkippedEmberKeepsItsLife(p: Particle, q: Particle, dec: real)
    requires p.life <= dec
    ensures Pass([p, q], dec) == [q]
  {
    assert [p, q][2..] == [];
  }

  /** Drawn size of a visited ember: its life times six times the
      intensity, but never less than one unit. */
  function Size(p: Particle, scale: real): (s: real)
    ensures s >= 1.0 && s >= p.life * 6.0 * scale
    ensures s == 1.0 || s == p.life * 6.0 * scale
  {
    if p.life * 6.0 * scale > 1.0 then p.life * 6.0 * scale else 1.0
  }

  /** The walk as the component performs it: an index runs over the length
      the list had when the walk began, the ember at the index is advanced,
      and a burnt-out ember is spliced out at the index, shifting the rest
      of the list down by one. */
  method WalkWithSplice(ps: seq<Particle>, dec: real) returns (list: seq<Particle>)
    ensures list == Pass(ps, dec)
  {
    list := ps;
    var n := |ps|;
    var k := 0;
    assert ps[0..] == ps;
    while k < n
      invariant 0 <= k <= n
      invariant |list| <= n
      invariant Walked(list, k, dec) == Pass(ps, dec)
    {
      if k < |list| {
        var p := Advance(list[k], dec);
        if p.life <= 0.0 {
          SpliceStep(list, k, dec);
          list := list[..k] + list[k + 1..];
        } else {
          AdvanceStep(list, k, dec);
          list := list[k := p];
        }
      }
      k := k + 1;
    }
  }

  /** The smaller of two integers. */
  function Min(a: int, b: int): int {
    if a < b then a else b
  }

  /** The list the walk ends with when it has reached index k of `list`:
      the entries before k are final and the rest are still to be walked. */
  function Walked(list: seq<Particle>, k: nat, dec: real): seq<Particle> {
    list[..Min(k, |list|)] + (if k <= |list| then Pass(list[k..], dec) else [])
  }

  /** Splicing out a burnt-out ember and moving the index on does not
      change where the walk ends. */
  lemma SpliceStep(list: seq<Particle>, k: nat, dec: real)
    requires k < |list| && Advance(list[k], dec).life <= 0.0
    ensures Walked(list[..k] + list[k + 1..], k + 1, dec) == Walked(list, k, dec)
  {
    if k + 1 < |list| {
      SpliceBeforeMore(list, k, dec);
    } else {
      assert list[..k] + list[k + 1..] == list[..k];
      assert Pass(list[k..], dec) == [];
    }
  }

  /** SpliceStep when at least one ember follows the burnt-out one. */
  lemma SpliceBeforeMore(list: seq<Particle>, k: nat, dec: real)
    requires k + 1 < |list| && Advance(list[k], dec).life <= 0.0
    ensures Walked(list[..k] + list[k + 1..], k + 1, dec) == Walked(list, k, dec)
  {
    var shorter := list[..k] + list[k + 1..];
    var rest := list[k..];
    assert rest[1] == list[k + 1] && rest[2..] == list[k + 2..];
    assert Pass(rest, dec) == [list[k + 1]] + Pass(list[k + 2..], dec);
    assert Min(k + 1, |shorter|) == k + 1;
    assert shorter[..k + 1] == list[..k] + [list[k + 1]];
    assert shorter[k + 1..] == list[k + 2..];
  }

  /** Advancing a live ember in place and moving the index on does not
      change where the walk ends. */
  lemma AdvanceStep(list: seq<Particle>, k: nat, dec: real)
    requires k < |list| && Advance(list[k], dec).life > 0.0
    ensures Walked(list[k := Advance(list[k], dec)], k + 1, dec) == Walked(list, k, dec)
  {
    var advanced := list[k := Advance(list[k], dec)];
    assert list[k..][1..] == list[k + 1..];
    assert advanced[..k + 1] == list[..k] + [Advance(list[k], dec)];
    assert advanced[k + 1..] == list[k + 1..];
  }
}
