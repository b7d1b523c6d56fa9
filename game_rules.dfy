/**
 * The arithmetic shared by both game pages, src/app/blackpool/page.tsx and
 * src/app/jogo/page.tsx, which repeat it line for line: drawing a new zone,
 * growing the speed after a hit, and the per-frame position update.
 * Random draws and frame timestamps are parameters.
 */
module GameRules {
  import opened Wrappers
  import opened Geometry

  /** The marker's speed at the start of a round, in laps per second. */
  const INITIAL_SPEED: real := 0.25

  /** The speed cap of `clamp(v * 1.08, 0, 2.0)`. */
  const MAX_SPEED: real := 2.0

  /** The speed factor applied on every hit. */
  const SPEED_GROWTH: real := 1.08

  /** The range of zone lengths `randRange(0.06, 0.1)` draws from, as fractions of the perimeter. */
  const ZONE_MIN_LENGTH: real := 0.06
  const ZONE_MAX_LENGTH: real := 0.1

  /** The zone both pages show before the first round. */
  const INITIAL_ZONE: Zone := Zone(0.1, 0.16)

  function Max(a: int, b: int): (r: int)
    ensures r >= a && r >= b && (r == a || r == b)
  {
    if a >= b then a else b
  }

  function Min(a: int, b: int): (r: int)
    ensures r <= a && r <= b && (r == a || r == b)
  {
    if a <= b then a else b
  }

  /** The length of a zone measured clockwise from `start` to `end`, `(end - start) mod 1`. */
  function ZoneLength(z: Zone): real
  {
    Frac(z.end - z.start)
  }

  /**
   * `randomizeZone`: with `len = randRange(0.06, 0.1)` drawn from
   * `lenDraw` and `start` the draw `startDraw`, the zone is
   * `{ start, end: (start + len) % 1 }`.  Both draws are `Math.random()`
   * values in [0, 1); `start + len` is non-negative, so JavaScript's `% 1` is
   * the fractional part there.
   */
  function RandomZone(lenDraw: real, startDraw: real): (z: Zone)
    requires 0.0 <= lenDraw < 1.0 && 0.0 <= startDraw < 1.0
    ensures z.start == startDraw
    ensures 0.0 <= z.end < 1.0
    ensures ZoneLength(z) == RandRange(ZONE_MIN_LENGTH, ZONE_MAX_LENGTH, lenDraw)
    ensures ZONE_MIN_LENGTH <= ZoneLength(z) < ZONE_MAX_LENGTH
  {
    var len := RandRange(ZONE_MIN_LENGTH, ZONE_MAX_LENGTH, lenDraw);
    var z := Zone(startDraw, Frac(startDraw + len));
    ZoneLengthOfShift(startDraw, len);
    z
  }

  /** For `start` in [0, 1) and `len` in (0, 1), the zone from `start` to `(start + len) mod 1` has length `len`. */
  lemma ZoneLengthOfShift(start: real, len: real)
    requires 0.0 <= start < 1.0 && 0.0 < len < 1.0
    ensures ZoneLength(Zone(start, Frac(start + len))) == len
  {
    if start + len < 1.0 {
      FracOfUnit(start + len);
      FracOfUnit(len);
    } else {
      FracShift(start + len - 1.0, 1);
      FracOfUnit(start + len - 1.0);
      FracShift(len - 1.0, 1);
      FracOfUnit(len);
    }
  }

  /** A freshly drawn zone always contains both of its ends, so a marker at `start` hits. */
  lemma RandomZoneHitAtStart(lenDraw: real, startDraw: real)
    requires 0.0 <= lenDraw < 1.0 && 0.0 <= startDraw < 1.0
    ensures IsHit(startDraw, RandomZone(lenDraw, startDraw).start, RandomZone(lenDraw, startDraw).end)
    ensures IsHit(RandomZone(lenDraw, startDraw).end, RandomZone(lenDraw, startDraw).start, RandomZone(lenDraw, startDraw).end)
  {
    var z := RandomZone(lenDraw, startDraw);
    IsHitEndpoints(z.start, z.end);
  }

  /** The speed after a hit, `clamp(v * 1.08, 0, 2.0)`. */
  function NextSpeed(v: real): (r: real)
    ensures 0.0 <= r <= MAX_SPEED
    ensures 0.0 <= v <= MAX_SPEED ==> v <= r
    ensures 0.0 <= v ==> r == MAX_SPEED || r == v * SPEED_GROWTH
  {
    Clamp(v * SPEED_GROWTH, 0.0, MAX_SPEED)
  }

  function Pow(b: real, n: nat): real
  {
    if n == 0 then 1.0 else Pow(b, n - 1) * b
  }

  /** The speed after `n` hits of one round, applying `NextSpeed` `n` times to INITIAL_SPEED. */
  function SpeedAfter(n: nat): real
  {
    if n == 0 then INITIAL_SPEED else NextSpeed(SpeedAfter(n - 1))
  }

  /** After `n` hits the speed is `0.25 * 1.08^n`, capped at 2.0. */
  lemma {:induction false} SpeedAfterClosedForm(n: nat)
    ensures var grown := INITIAL_SPEED * Pow(SPEED_GROWTH, n);
      SpeedAfter(n) == if grown <= MAX_SPEED then grown else MAX_SPEED
  {
    if n > 0 {
      SpeedAfterClosedForm(n - 1);
      var prev := INITIAL_SPEED * Pow(SPEED_GROWTH, n - 1);
      PowPositive(SPEED_GROWTH, n - 1);
      assert INITIAL_SPEED * Pow(SPEED_GROWTH, n) == prev * SPEED_GROWTH;
    }
  }

  lemma {:induction false} PowPositive(b: real, n: nat)
    requires b > 0.0
    ensures Pow(b, n) > 0.0
  {
    if n > 0 {
      PowPositive(b, n - 1);
      assert Pow(b, n - 1) * b > 0.0;
    }
  }

  /** `x` rounded toward zero, as JavaScript's `%` rounds the quotient. */
  function Trunc(x: real): (n: int)
    ensures x >= 0.0 ==> n as real <= x < n as real + 1.0
    ensures x < 0.0 ==> n as real - 1.0 < x <= n as real
  {
    if x >= 0.0 then x.Floor else var k := (-x).Floor; -k
  }

  /** JavaScript's `x % 1`: the remainder truncated toward zero, so it has the sign of `x`. */
  function JsRem1(x: real): (r: real)
    ensures x >= 0.0 ==> 0.0 <= r < 1.0
    ensures x < 0.0 ==> -1.0 < r <= 0.0
    ensures x - r == Trunc(x) as real
  {
    if x >= 0.0 then Frac(x) else -Frac(-x)
  }

  /**
   * The elapsed seconds of one animation frame: `(ts - lastTs) / 1000`, where
   * the first frame after (re)subscription, with no previous timestamp,
   * counts as the previous timestamp itself.
   */
  function FrameSeconds(lastTs: Option<real>, ts: real): (dt: real)
    ensures lastTs.None? ==> dt == 0.0
    ensures lastTs.Some? ==> dt * 1000.0 == ts - lastTs.value
  {
    var last := if lastTs.None? then ts else lastTs.value;
    (ts - last) / 1000.0
  }

  /** The position after one frame, `(t + speed * dt) % 1`. */
  function Advance(t: real, speed: real, dt: real): (r: real)
    ensures 0.0 <= t && 0.0 <= speed * dt ==> 0.0 <= r < 1.0
  {
    JsRem1(t + speed * dt)
  }

  /** A frame with no elapsed time leaves a position in [0, 1) where it is. */
  lemma AdvanceStill(t: real, speed: real)
    requires 0.0 <= t < 1.0
    ensures Advance(t, speed, 0.0) == t
  {
    FracOfUnit(t);
  }

  /**
   * Whatever the sign of the step, the position after the frame is the
   * exact new position modulo whole laps, so the hit test sees it unchanged.
   */
  lemma AdvanceModLaps(t: real, speed: real, dt: real, start: real, end: real)
    ensures Frac(Advance(t, speed, dt)) == Frac(t + speed * dt)
    ensures IsHit(Advance(t, speed, dt), start, end) == IsHit(t + speed * dt, start, end)
  {
    var x := t + speed * dt;
    var r := JsRem1(x);
    FracShift(r, Trunc(x));
  }
}
