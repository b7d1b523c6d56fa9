/**
 * The older "Block Loop" page (src/app/jogo/page.tsx): the same timing game
 * without stakes, milestones or a ledger.  Its `clamp`, `tToXY`, `isHit`,
 * `segmentForEdge` and `randomizeZone` are the ones of modules Geometry,
 * ZoneOverlay and GameRules, which the page repeats line for line.
 */
module BlockLoop {
  import opened Wrappers
  import opened Geometry
  import opened GameRules

  datatype Phase = Idle | Playing | Gameover

  datatype Session = Session(
    phase: Phase, score: int, best: int, t: real, speed: real, zone: Zone, lastTs: Option<real>)

  class BlockLoopGame {
    var phase: Phase
    var score: int
    var best: int
    var t: real
    var speed: real
    var zone: Zone
    var lastTs: Option<real>

    function State(): Session
      reads this
    {
      Session(phase, score, best, t, speed, zone, lastTs)
    }

    /** The score and best score are counts, the speed stays between its start value and its cap, positions are fractions of a lap. */
    ghost predicate Valid()
      reads this
    {
      && score >= 0 && best >= 0
      && INITIAL_SPEED <= speed <= MAX_SPEED
      && 0.0 <= t < 1.0
      && 0.0 <= zone.start < 1.0 && 0.0 <= zone.end < 1.0
    }

    constructor ()
      ensures Valid()
      ensures State() == Session(Idle, 0, 0, 0.0, INITIAL_SPEED, INITIAL_ZONE, None)
    {
      phase, score, best := Idle, 0, 0;
      t, speed, zone, lastTs := 0.0, INITIAL_SPEED, INITIAL_ZONE, None;
    }

    /** `randomizeZone`, with its two `Math.random()` draws passed in. */
    method RandomizeZone(lenDraw: real, startDraw: real)
      requires Valid()
      requires 0.0 <= lenDraw < 1.0 && 0.0 <= startDraw < 1.0
      modifies this
      ensures Valid()
      ensures State() == old(State()).(zone := RandomZone(lenDraw, startDraw))
    {
      zone := RandomZone(lenDraw, startDraw);
    }

    /** `startGame`: a round starts at score 0 with the initial speed, a new zone and a random position; no stake is involved. */
    method StartGame(lenDraw: real, startDraw: real, tDraw: real)
      requires Valid()
      requires 0.0 <= lenDraw < 1.0 && 0.0 <= startDraw < 1.0 && 0.0 <= tDraw < 1.0
      modifies this
      ensures Valid()
      ensures State() == old(State()).(
        phase := Playing, score := 0, speed := INITIAL_SPEED,
        zone := RandomZone(lenDraw, startDraw), t := tDraw)
    {
      score := 0;
      speed := INITIAL_SPEED;
      RandomizeZone(lenDraw, startDraw);
      t := tDraw;
      phase := Playing;
    }

    /** `onHit`: the score goes up by one, the speed grows up to its cap, a new zone is drawn, and the phase stays as it is. */
    method OnHit(lenDraw: real, startDraw: real)
      requires Valid()
      requires 0.0 <= lenDraw < 1.0 && 0.0 <= startDraw < 1.0
      modifies this
      ensures Valid()
      ensures State() == old(State()).(
        score := old(score) + 1, speed := NextSpeed(old(speed)), zone := RandomZone(lenDraw, startDraw))
    {
      score := score + 1;
      speed := NextSpeed(speed);
      RandomizeZone(lenDraw, startDraw);
    }

    /** `onMiss`: the round is over and the best score is kept up to date. */
    method OnMiss()
      requires Valid()
      modifies this
      ensures Valid()
      ensures State() == old(State()).(phase := Gameover, best := Max(old(best), old(score)))
    {
      phase := Gameover;
      best := Max(best, score);
    }

    /**
     * `handleAction`, the board's click, tap or Space key: in `idle` it starts
     * a round at once, while playing it scores a hit or a miss depending on
     * where the marker is, and after a game over it returns to `idle`.
     */
    method HandleAction(lenDraw: real, startDraw: real, tDraw: real)
      requires Valid()
      requires 0.0 <= lenDraw < 1.0 && 0.0 <= startDraw < 1.0 && 0.0 <= tDraw < 1.0
      modifies this
      ensures Valid()
      ensures old(phase) == Idle ==> State() == old(State()).(
        phase := Playing, score := 0, speed := INITIAL_SPEED,
        zone := RandomZone(lenDraw, startDraw), t := tDraw)
      ensures old(phase) == Playing && IsHit(old(t), old(zone).start, old(zone).end) ==>
        State() == old(State()).(
          score := old(score) + 1, speed := NextSpeed(old(speed)), zone := RandomZone(lenDraw, startDraw))
      ensures old(phase) == Playing && !IsHit(old(t), old(zone).start, old(zone).end) ==>
        State() == old(State()).(phase := Gameover, best := Max(old(best), old(score)))
      ensures old(phase) == Gameover ==> State() == old(State()).(phase := Idle)
    {
      if phase == Idle {
        StartGame(lenDraw, startDraw, tDraw);
        return;
      }
      if phase == Playing {
        if IsHit(t, zone.start, zone.end) {
          OnHit(lenDraw, startDraw);
        } else {
          OnMiss();
        }
        return;
      }
      if phase == Gameover {
        phase := Idle;
      }
    }

    /** The main button above the board: while playing it gives up the round as a miss, otherwise it starts a round. */
    method PressMainButton(lenDraw: real, startDraw: real, tDraw: real)
      requires Valid()
      requires 0.0 <= lenDraw < 1.0 && 0.0 <= startDraw < 1.0 && 0.0 <= tDraw < 1.0
      modifies this
      ensures Valid()
      ensures old(phase) == Playing ==> State() == old(State()).(phase := Gameover, best := Max(old(best), old(score)))
      ensures old(phase) != Playing ==> State() == old(State()).(
        phase := Playing, score := 0, speed := INITIAL_SPEED,
        zone := RandomZone(lenDraw, startDraw), t := tDraw)
    {
      if phase == Playing {
        OnMiss();
      } else {
        StartGame(lenDraw, startDraw, tDraw);
      }
    }

    /**
     * The animation frame callback `step(ts)`: the first frame after
     * (re)subscription counts as no elapsed time; the position moves by
     * `speed * dt` laps only while playing.  Frame timestamps never go back.
     */
    method Step(ts: real)
      requires Valid()
      requires lastTs.Some? ==> ts >= lastTs.value
      modifies this
      ensures Valid()
      ensures var dt := FrameSeconds(old(lastTs), ts);
        State() == old(State()).(
          lastTs := Some(ts),
          t := if old(phase) == Playing then Advance(old(t), old(speed), dt) else old(t))
    {
      var last := if lastTs.None? then ts else lastTs.value;
      var dt := (ts - last) / 1000.0;
      lastTs := Some(ts);
      if phase == Playing {
        assert speed * dt >= 0.0;
        t := Advance(t, speed, dt);
      }
    }

    /**
     * The animation effect's cleanup and re-subscription, which React runs
     * whenever the phase or the speed has changed: the next frame starts
     * without a previous timestamp.
     */
    method RestartAnimation()
      requires Valid()
      modifies this
      ensures Valid()
      ensures State() == old(State()).(lastTs := None)
    {
      lastTs := None;
    }
  }

  /** Five hits in a row from `idle`: the round keeps playing at score 5, the speed has grown five times, and a miss records 5 as the best. */
  method FiveHitsThenMiss() returns (scoreBeforeMiss: int, speed: real, phase: Phase, best: int)
    ensures scoreBeforeMiss == 5 && speed == SpeedAfter(5)
    ensures phase == Gameover && best == 5
  {
    var game := new BlockLoopGame();
    game.HandleAction(0.0, 0.5, 0.5);
    var i := 0;
    while i < 5
      invariant 0 <= i <= 5
      invariant game.Valid() && game.phase == Playing
      invariant game.score == i && game.best == 0 && game.speed == SpeedAfter(i)
      invariant game.zone.start == game.t && 0.0 <= game.zone.end < 1.0
    {
      IsHitEndpoints(game.t, game.zone.end);
      game.HandleAction(0.0, game.t, 0.0);
      i := i + 1;
    }
    scoreBeforeMiss, speed := game.score, game.speed;
    var far := Frac(game.t + 0.5);
    game.RandomizeZone(0.0, far);
    assert !IsHit(game.t, game.zone.start, game.zone.end) by {
      MissOpposite(game.t);
    }
    game.HandleAction(0.0, 0.0, 0.0);
    phase, best := game.phase, game.best;
  }

  /** A zone of the shortest length starting half a lap away does not contain `t`. */
  lemma MissOpposite(t: real)
    requires 0.0 <= t < 1.0
    ensures !IsHit(t, RandomZone(0.0, Frac(t + 0.5)).start, RandomZone(0.0, Frac(t + 0.5)).end)
  {
    var z := RandomZone(0.0, Frac(t + 0.5));
    FracOfUnit(t);
    FracOfUnit(z.start);
    FracOfUnit(z.end);
    if t + 0.5 < 1.0 {
      FracOfUnit(t + 0.5);
    } else {
      FracShift(t - 0.5, 1);
      FracOfUnit(t - 0.5);
    }
    ZoneLengthOfShift(z.start, 0.06);
    if z.start + 0.06 < 1.0 {
      FracOfUnit(z.start + 0.06);
    } else {
      FracShift(z.start + 0.06 - 1.0, 1);
      FracOfUnit(z.start + 0.06 - 1.0);
    }
  }
}
