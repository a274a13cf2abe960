/** What the player can do: trigger a musician directly, press a key, or
    click on the canvas.  A trigger makes a grounded musician jump, plays
    its note and feeds the fire. */
module Input {
  import opened Scene
  import Intensity
  import Layout

  /** Trigger the musician with the given index.  Nothing happens unless
      the index names a musician that stands at most TriggerSlack above
      the trigger's own ground line; then that musician gets the jump
      velocity, its note is played and the fire is boosted. */
  function Trigger(w: World, index: int): (e: Effect)
    ensures !(0 <= index < |w.musicians|) || w.musicians[index].y < TriggerGroundY - TriggerSlack
      ==> e == Effect(w, [])
    ensures 0 <= index < |w.musicians| && w.musicians[index].y >= TriggerGroundY - TriggerSlack ==>
      && e.notes == [w.musicians[index].note]
      && |e.world.musicians| == |w.musicians|
      && e.world.musicians[index].vy == JumpVelocity
      && e.world.musicians[index] == w.musicians[index].(vy := e.world.musicians[index].vy)
      && (forall j :: 0 <= j < |w.musicians| && j != index ==> e.world.musicians[j] == w.musicians[j])
      && e.world.intensity == Intensity.Boost(w.intensity)
      && e.world.particles == w.particles && e.world.stars == w.stars
  {
    if 0 <= index < |w.musicians| && w.musicians[index].y >= TriggerGroundY - TriggerSlack then
      var m := w.musicians[index];
      Effect(
        w.(musicians := w.musicians[index := m.(vy := JumpVelocity)],
           intensity := Intensity.Boost(w.intensity)),
        [m.note])
    else Effect(w, [])
  }

  /** Triggers the musicians with the given indices one after another,
      collecting the notes played. */
  function TriggerAll(w: World, indices: seq<int>): (e: Effect)
    ensures |e.notes| <= |indices|
    ensures |e.world.musicians| == |w.musicians|
    decreases |indices|
  {
    if |indices| == 0 then Effect(w, [])
    else
      var first := Trigger(w, indices[0]);
      var rest := TriggerAll(first.world, indices[1..]);
      Effect(rest.world, first.notes + rest.notes)
  }

  // ---------------------------------------------------------------------
  // Keys.  The handler turns the key's name into a number the way
  // JavaScript's parseInt does (no radix given) and subtracts one.

  /** White space and line terminators that parseInt skips before the number. */
  predicate IsJsSpace(c: char) {
    c in {'\t', '\n', '\U{B}', '\U{C}', '\r', ' ', '\U{A0}', '\U{1680}',
          '\U{2028}', '\U{2029}', '\U{202F}', '\U{205F}', '\U{3000}', '\U{FEFF}'}
    || ('\U{2000}' <= c <= '\U{200A}')
  }

  function TrimStart(s: string): (t: string)
    ensures |t| <= |s|
    ensures |t| > 0 ==> !IsJsSpace(t[0])
  {
    if |s| > 0 && IsJsSpace(s[0]) then TrimStart(s[1..]) else s
  }

  /** Trimming drops a prefix of white space and keeps the rest as it is. */
  lemma {:induction false} TrimStartDropsSpace(s: string)
    ensures TrimStart(s) == s[|s| - |TrimStart(s)|..]
    ensures forall i :: 0 <= i < |s| - |TrimStart(s)| ==> IsJsSpace(s[i])
  {
    if |s| > 0 && IsJsSpace(s[0]) {
      TrimStartDropsSpace(s[1..]);
      assert s[1..][|s| - 1 - |TrimStart(s)|..] == s[|s| - |TrimStart(s)|..];
    }
  }

  /** The value of c as a digit in base 10 or 16, or -1 if it is none. */
  function DigitValue(c: char, radix: int): (v: int)
    ensures v == -1 || 0 <= v < radix
    ensures v >= 0 ==> ('0' <= c <= '9' || radix == 16)
  {
    if '0' <= c <= '9' && (c as int - '0' as int) < radix then c as int - '0' as int
    else if radix == 16 && 'a' <= c <= 'f' then c as int - 'a' as int + 10
    else if radix == 16 && 'A' <= c <= 'F' then c as int - 'A' as int + 10
    else -1
  }

  /** Length of the longest prefix of s made of digits in the radix. */
  function DigitRun(s: string, radix: int): (n: nat)
    ensures n <= |s|
    ensures forall i :: 0 <= i < n ==> DigitValue(s[i], radix) >= 0
    ensures n < |s| ==> DigitValue(s[n], radix) < 0
  {
    if |s| > 0 && DigitValue(s[0], radix) >= 0 then 1 + DigitRun(s[1..], radix) else 0
  }

  /** The number the digits of s spell in the radix, most significant first. */
  function DigitsValue(s: string, radix: int): int
    requires forall i :: 0 <= i < |s| ==> DigitValue(s[i], radix) >= 0
  {
    if |s| == 0 then 0 else DigitsValue(s[..|s| - 1], radix) * radix + DigitValue(s[|s| - 1], radix)
  }

  /** The unsigned part of parseInt: a "0x" or "0X" switches to base 16,
      and the longest run of digits that follows is the number; no digits
      at all is NaN (None). */
  function ParseUnsigned(u: string): (r: Option<int>)
    ensures r.Some? ==> r.value >= 0
  {
    if HexPrefixed(u) then ParseRun(u[2..], 16) else ParseRun(u, 10)
  }

  /** The string starts with 0x or 0X, which makes parseInt read base 16. */
  predicate HexPrefixed(u: string) {
    |u| >= 2 && u[0] == '0' && (u[1] == 'x' || u[1] == 'X')
  }

  /** The number spelled by the longest run of digits at the front of s. */
  function ParseRun(s: string, radix: int): (r: Option<int>)
    requires radix > 0
    ensures r.Some? ==> r.value >= 0
    ensures r.None? <==> DigitRun(s, radix) == 0
  {
    var n := DigitRun(s, radix);
    if n == 0 then None
    else
      DigitsNonNegative(s[..n], radix);
      Some(DigitsValue(s[..n], radix))
  }

  /** A run of digits spells a non-negative number. */
  lemma {:induction false} DigitsNonNegative(s: string, radix: int)
    requires radix > 0
    requires forall i :: 0 <= i < |s| ==> DigitValue(s[i], radix) >= 0
    ensures DigitsValue(s, radix) >= 0
  {
    if |s| > 0 {
      DigitsNonNegative(s[..|s| - 1], radix);
    }
  }

  /** The characters parseInt can find a number behind. */
  predicate SignOrDigit(c: char) {
    c == '-' || c == '+' || '0' <= c <= '9'
  }

  /** JavaScript's parseInt(s) without a radix, with NaN as None: leading
      white space is skipped and one sign is read before the number. */
  function ParseInt(s: string): (r: Option<int>)
    ensures |s| == 0 ==> r.None?
    ensures |s| > 0 && IsJsSpace(s[0]) ==> r == ParseInt(s[1..])
    ensures |s| > 0 && !IsJsSpace(s[0]) && !SignOrDigit(s[0]) ==> r.None?
    decreases |s|
  {
    ParseSigned(TrimStart(s))
  }

  /** parseInt after the leading white space: an optional sign, then the
      unsigned part. */
  function ParseSigned(t: string): (r: Option<int>)
    ensures r.Some? ==> |t| > 0 && SignOrDigit(t[0])
    ensures r.Some? && r.value < 0 ==> t[0] == '-'
    ensures r.Some? && t[0] == '-' ==> r.value <= 0
  {
    var negative := |t| > 0 && t[0] == '-';
    var u := if |t| > 0 && (t[0] == '-' || t[0] == '+') then t[1..] else t;
    var m := ParseUnsigned(u);
    if m.None? then None else if negative then Some(-m.value) else m
  }

  /** A minus sign in front of an unsigned number negates it. */
  lemma MinusNegates(u: string)
    requires |u| > 0 && '0' <= u[0] <= '9'
    ensures ParseUnsigned(u).None? ==> ParseSigned("-" + u).None?
    ensures ParseUnsigned(u).Some? ==> ParseSigned("-" + u) == Some(-ParseUnsigned(u).value)
  {
    var t := "-" + u;
    assert t[0] == '-' && t[1..] == u;
  }

  /** The musician a key names: parseInt of the key, less one, when that
      lies in 0..6. */
  function KeyIndex(key: string): (r: Option<int>)
    ensures r.Some? ==> 0 <= r.value < MusicianCount
    ensures r.Some? <==> ParseInt(key).Some? && 1 <= ParseInt(key).value <= 7
    ensures r.Some? ==> r.value == ParseInt(key).value - 1
  {
    match ParseInt(key)
    case None => None
    case Some(n) => if n - 1 >= 0 && n - 1 < 7 then Some(n - 1) else None
  }

  /** A single-character key names a musician exactly when it is one of
      the digits 1 to 7, and then it names the musician one below it. */
  lemma SingleKeyIndex(c: char)
    ensures KeyIndex([c]).Some? <==> '1' <= c <= '7'
    ensures '1' <= c <= '7' ==> KeyIndex([c]) == Some(c as int - '1' as int)
  {
    var s := [c];
    if IsJsSpace(c) {
      assert TrimStart(s) == TrimStart(s[1..]) == [];
    } else {
      assert TrimStart(s) == s;
      if '0' <= c <= '9' {
        assert DigitRun(s, 10) == 1 by {
          assert DigitRun(s[1..], 10) == 0;
        }
        assert s[..1] == s;
        assert DigitsValue(s, 10) == DigitsValue([], 10) * 10 + DigitValue(c, 10) by {
          assert s[..|s| - 1] == [];
        }
      } else {
        assert DigitValue(c, 10) < 0;
      }
    }
  }

  /** The decimal numeral of n, without sign or leading zeros. */
  function Decimal(n: nat): (s: string)
    ensures |s| >= 1
    ensures forall i :: 0 <= i < |s| ==> '0' <= s[i] <= '9'
  {
    var last := ('0' as int + n % 10) as char;
    if n < 10 then [last] else Decimal(n / 10) + [last]
  }

  /** Read back, a numeral spells the number it was written from. */
  lemma {:induction false} DecimalValue(n: nat)
    ensures DigitsValue(Decimal(n), 10) == n
  {
    var s := Decimal(n);
    if n >= 10 {
      DecimalValue(n / 10);
      assert s[..|s| - 1] == Decimal(n / 10);
    }
  }

  /** A string of digits is one digit run. */
  lemma {:induction false} AllDigitsRun(s: string, radix: int)
    requires forall i :: 0 <= i < |s| ==> DigitValue(s[i], radix) >= 0
    ensures DigitRun(s, radix) == |s|
  {
    if |s| > 0 {
      AllDigitsRun(s[1..], radix);
    }
  }

  /** A non-empty string of decimal digits is read whole by the unsigned
      reader. */
  lemma ParseUnsignedOfDigits(s: string)
    requires |s| > 0 && forall i :: 0 <= i < |s| ==> '0' <= s[i] <= '9'
    ensures ParseUnsigned(s) == Some(DigitsValue(s, 10))
  {
    assert !HexPrefixed(s) by {
      assert |s| >= 2 ==> '0' <= s[1] <= '9';
    }
    forall i | 0 <= i < |s|
      ensures DigitValue(s[i], 10) >= 0
    {
    }
    AllDigitsRun(s, 10);
    assert s[..|s|] == s;
  }

  /** The unsigned reader inverts writing a number in decimal. */
  lemma ParseUnsignedReadsDecimal(n: nat)
    ensures ParseUnsigned(Decimal(n)) == Some(n)
  {
    ParseUnsignedOfDigits(Decimal(n));
    DecimalValue(n);
  }

  /** Nothing is trimmed from a string that starts with a digit or a sign. */
  lemma NothingToTrim(s: string)
    requires |s| > 0 && ('0' <= s[0] <= '9' || s[0] == '-')
    ensures TrimStart(s) == s
  {
    assert !IsJsSpace(s[0]);
  }

  /** A string that starts with a digit is read by the unsigned reader
      alone, and with a minus sign in front its value is negated. */
  lemma ParseIntOfDigitFirst(s: string)
    requires |s| > 0 && '0' <= s[0] <= '9'
    ensures ParseInt(s) == ParseUnsigned(s)
    ensures ParseUnsigned(s).None? ==> ParseInt("-" + s).None?
    ensures ParseUnsigned(s).Some? ==> ParseInt("-" + s) == Some(-ParseUnsigned(s).value)
  {
    NothingToTrim(s);
    NothingToTrim("-" + s);
    MinusNegates(s);
  }

  /** parseInt inverts writing a number in decimal, with or without a
      minus sign in front. */
  lemma ParseIntReadsDecimal(n: nat)
    ensures ParseInt(Decimal(n)) == Some(n)
    ensures ParseInt("-" + Decimal(n)) == Some(-(n as int))
  {
    ParseUnsignedReadsDecimal(n);
    ParseIntOfDigitFirst(Decimal(n));
  }

  /** The key named by a number's numeral is the musician one below it,
      for the numbers 1 to 7 and no others. */
  lemma NumeralKeys(n: nat)
    ensures KeyIndex(Decimal(n)).Some? <==> 1 <= n <= 7
    ensures 1 <= n <= 7 ==> KeyIndex(Decimal(n)) == Some(n - 1)
  {
    var s := Decimal(n);
    ParseIntReadsDecimal(n);
    KeyOfParsed(s, n);
  }

  /** Which musician a key names depends only on what parseInt reads from it. */
  lemma KeyOfParsed(s: string, n: int)
    requires ParseInt(s) == Some(n)
    ensures KeyIndex(s).Some? <==> 1 <= n <= 7
    ensures 1 <= n <= 7 ==> KeyIndex(s) == Some(n - 1)
  {
    var r := KeyIndex(s);
    assert r.Some? <==> 1 <= n <= 7;
    if r.Some? {
      assert r.value == n - 1;
    }
  }

  /** Named keys ("Enter", "F5", "ArrowUp", ...) start with a letter and
      name no musician. */
  lemma NamedKeysIgnored(key: string)
    requires |key| > 0 && ('a' <= key[0] <= 'z' || 'A' <= key[0] <= 'Z')
    ensures KeyIndex(key) == None
  {
    assert TrimStart(key) == key;
    assert DigitValue(key[0], 10) < 0;
  }

  /** The key handler: a key naming a musician triggers it, any other key
      does nothing. */
  function HandleKey(w: World, key: string): (e: Effect)
    ensures KeyIndex(key).None? ==> e == Effect(w, [])
    ensures KeyIndex(key).Some? ==> e == Trigger(w, KeyIndex(key).value)
  {
    match KeyIndex(key)
    case None => Effect(w, [])
    case Some(i) => Trigger(w, i)
  }

  // ---------------------------------------------------------------------
  // Clicks.

  /** The indices, in increasing order, of the musicians whose hit band
      contains clickX. */
  function Hits(ms: seq<Musician>, clickX: real, from: nat): (hs: seq<int>)
    requires from <= |ms|
    ensures forall k :: 0 <= k < |hs| ==> from <= hs[k] < |ms| && Layout.Hit(clickX, ms[hs[k]].x)
    ensures forall i :: from <= i < |ms| && Layout.Hit(clickX, ms[i].x) ==> i in hs
    ensures forall k, l :: 0 <= k < l < |hs| ==> hs[k] < hs[l]
    decreases |ms| - from
  {
    if from == |ms| then []
    else if Layout.Hit(clickX, ms[from].x) then [from] + Hits(ms, clickX, from + 1)
    else Hits(ms, clickX, from + 1)
  }

  /** The click handler: walks the musicians in order and triggers every
      one whose hit band contains the click's canvas coordinate. */
  function ClickFrom(w: World, clickX: real, from: nat): (e: Effect)
    requires from <= |w.musicians|
    ensures e == TriggerAll(w, Hits(w.musicians, clickX, from))
    decreases |w.musicians| - from
  {
    if from == |w.musicians| then Effect(w, [])
    else
      var first := if Layout.Hit(clickX, w.musicians[from].x) then Trigger(w, from) else Effect(w, []);
      XsUnchanged(w, from);
      HitsFollowX(first.world.musicians, w.musicians, clickX, from + 1);
      var rest := ClickFrom(first.world, clickX, from + 1);
      Effect(rest.world, first.notes + rest.notes)
  }

  /** When every musician from `from` on stands within the click's band and
      close enough to the ground, the click plays one note for each. */
  lemma {:induction false} ClickPlaysEveryGrounded(w: World, clickX: real, from: nat)
    requires from <= |w.musicians|
    requires forall j :: from <= j < |w.musicians| ==>
      Layout.Hit(clickX, w.musicians[j].x) && w.musicians[j].y >= TriggerGroundY - TriggerSlack
    ensures |ClickFrom(w, clickX, from).notes| == |w.musicians| - from
    decreases |w.musicians| - from
  {
    if from < |w.musicians| {
      var first := Trigger(w, from);
      ClickPlaysEveryGrounded(first.world, clickX, from + 1);
    }
  }

  /** Which musicians a click hits depends on their horizontal positions only. */
  lemma {:induction false} HitsFollowX(ms: seq<Musician>, ns: seq<Musician>, clickX: real, from: nat)
    requires |ms| == |ns| && from <= |ms|
    requires forall j :: 0 <= j < |ms| ==> ms[j].x == ns[j].x
    ensures Hits(ms, clickX, from) == Hits(ns, clickX, from)
    decreases |ms| - from
  {
    if from < |ms| {
      HitsFollowX(ms, ns, clickX, from + 1);
    }
  }

  /** A click on the canvas at clickX: every musician whose band contains
      it is triggered, from left to right. */
  function Click(w: World, clickX: real): (e: Effect)
    ensures e == TriggerAll(w, Hits(w.musicians, clickX, 0))
    ensures |e.notes| <= |Hits(w.musicians, clickX, 0)|
  {
    ClickFrom(w, clickX, 0)
  }

  /** A trigger leaves every musician where it stands horizontally, so the
      hit test for later musicians in the same click is not affected. */
  lemma XsUnchanged(w: World, index: int)
    ensures |Trigger(w, index).world.musicians| == |w.musicians|
    ensures forall j :: 0 <= j < |w.musicians| ==> Trigger(w, index).world.musicians[j].x == w.musicians[j].x
  {
  }

  /** With the musicians in their slots, a click plays at most two notes,
      and at most one once the canvas is wide enough for the gap to reach
      its maximum. */
  lemma {:induction false} ClickPlaysAtMostTwo(w: World, width: nat, clickX: real)
    requires |w.musicians| == MusicianCount
    requires forall i :: 0 <= i < |w.musicians| ==> w.musicians[i].x == Layout.Slot(width, i)
    ensures |Click(w, clickX).notes| <= 2
    ensures Layout.Gap(width) == Layout.MaxGap ==> |Click(w, clickX).notes| <= 1
  {
    var hs := Hits(w.musicians, clickX, 0);
    if |hs| >= 2 {
      Layout.HitZonesOnlyNeighboursOverlap(width, clickX, hs[0], hs[1]);
    }
    if |hs| >= 3 {
      Layout.HitZonesOnlyNeighboursOverlap(width, clickX, hs[0], hs[1]);
      Layout.HitZonesOnlyNeighboursOverlap(width, clickX, hs[1], hs[2]);
      Layout.HitZonesOnlyNeighboursOverlap(width, clickX, hs[0], hs[2]);
      assert false;
    }
  }

  // ---------------------------------------------------------------------
  // Scenarios.

  /** The trigger's ground line is a literal of its own; it coincides with
      the physics' ground line only because the canvas is 300 units tall. */
  lemma GroundLinesAgree()
    ensures TriggerGroundY == GroundY
    ensures TriggerGroundY == CanvasHeight - 40.0
  {
  }

  /** The guard's 5-unit slack would let a musician slightly above the
      ground, still moving, jump again. The toy's own motion never produces
      such a state: every musician stays on the jump arc, which is at
      least 8 units up until it lands exactly on the ground at rest, and
      the world invariant keeps that across any interleaving of frames and
      triggers (Physics.StepKeepsOnArc, Header.TriggerOnlyFromGround), so
      in the running header the slack never takes effect. */
  lemma SlackAllowsNearGroundJump(w: World, index: int)
    requires 0 <= index < |w.musicians|
    requires w.musicians[index].y == 257.0 && w.musicians[index].vy == 3.0
    ensures Trigger(w, index).world.musicians[index].vy == JumpVelocity
    ensures |Trigger(w, index).notes| == 1
  {
  }

  /** Three quick triggers of the first musician from the baseline: each
      one finds it still on the ground, so three notes are played at its
      frequency, and the fire climbs 1, 2.5, 4, then stops at the cap 5. */
  lemma ThreeQuickTriggers(w: World)
    requires HasScale(w.musicians) && w.musicians[0].y == GroundY
    requires w.intensity == BaseIntensity
    ensures var e1 := Trigger(w, 0);
            var e2 := Trigger(e1.world, 0);
            var e3 := Trigger(e2.world, 0);
            && e1.notes + e2.notes + e3.notes == [261.63, 261.63, 261.63]
            && e3.world.intensity == MaxIntensity
  {
    var e1 := Trigger(w, 0);
    assert e1.world.intensity == 2.5;
    var e2 := Trigger(e1.world, 0);
    assert e2.world.intensity == 4.0;
  }
}
