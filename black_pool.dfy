/**
 * The "Black Pool" game (src/app/blackpool/page.tsx): the timing game with a
 * stake debited from the points ledger at the start of a round, pauses at
 * the score milestones 10, 20, 30 and 40, and a payout on cash-out.
 *
 * Each handler's setter calls are applied as sequential field updates.
 * Random draws (`Math.random()`) and frame timestamps are parameters.
 */
module BlackPool {
  import opened Wrappers
  import opened Geometry
  import opened GameRules
  import opened UserPointsProvider

  datatype Phase = Idle | Playing | Paused | Gameover

  /** Scores are milestones every MILESTONE_STEP hits, up to MAX_MILESTONE. */
  const MILESTONE_STEP: int := 10
  const MAX_MILESTONE: int := 40

  /** The stake the stake selector starts with. */
  const DEFAULT_STAKE: int := 10

  /**
   * `onHit`'s pause test on the new score: `newScore % 10 === 0 && newScore <= 40`.
   * The positive scores it accepts are exactly 10, 20, 30 and 40.
   */
  function IsMilestone(n: int): (pause: bool)
    ensures n >= 1 ==> (pause <==> n == 10 || n == 20 || n == 30 || n == 40)
  {
    assert n % MILESTONE_STEP == 0 ==> n == n / MILESTONE_STEP * MILESTONE_STEP;
    n % MILESTONE_STEP == 0 && n <= MAX_MILESTONE
  }

  /** `multiplierFor`: the payout multiplier of a milestone score, `None` off the milestones. */
  function MultiplierFor(score: int): (m: Option<int>)
    ensures m.Some? <==> score == 10 || score == 20 || score == 30 || score == 40
    ensures score == 10 ==> m == Some(1)
    ensures score == 20 ==> m == Some(2)
    ensures score == 30 ==> m == Some(5)
    ensures score == 40 ==> m == Some(10)
  {
    if score < 10 then None
    else if score == 10 then Some(1)
    else if score == 20 then Some(2)
    else if score == 30 then Some(5)
    else if score == 40 then Some(10)
    else None
  }

  /**
   * `canContinue`: play may resume after a milestone below the last one, that
   * is, exactly when a further milestone with a payout lies ahead.
   */
  function CanContinue(score: int): (ok: bool)
    ensures IsMilestone(score) && score >= 1 ==> (ok <==> MultiplierFor(score + MILESTONE_STEP).Some?)
  {
    score < MAX_MILESTONE
  }

  /** Every score at which a hit pauses the game has a multiplier, and no other positive score has one. */
  lemma PausesArePayable(n: int)
    requires n >= 1
    ensures IsMilestone(n) <==> MultiplierFor(n).Some?
  {
  }

  /** Of the milestones, only the last one forbids continuing. */
  lemma ContinueAtMilestones(n: int)
    requires MultiplierFor(n).Some?
    ensures CanContinue(n) <==> n != MAX_MILESTONE
  {
  }

  /** The multiplier strictly grows from one milestone to the next. */
  lemma MultiplierIncreasing(a: int, b: int)
    requires MultiplierFor(a).Some? && MultiplierFor(b).Some? && a < b
    ensures MultiplierFor(a).value < MultiplierFor(b).value
  {
  }

  /**
   * The stake `startGame` takes: `min(stake, user.points)`, or nothing when
   * there is no profile or that amount is not positive.
   */
  function StakeFor(user: Option<UserProfile>, stake: int): (s: Option<int>)
    ensures s.Some? <==> user.Some? && stake > 0 && user.value.points > 0
    ensures s.Some? ==> 0 < s.value <= stake && s.value <= user.value.points
    ensures s.Some? ==> s.value == stake || s.value == user.value.points
  {
    if user.None? then None
    else
      var s := Min(stake, user.value.points);
      if s <= 0 then None else Some(s)
  }

  /** The prize `handleCashOut` credits, `currentStake * multiplier`, when both exist. */
  function Prize(currentStake: Option<int>, score: int): (p: Option<int>)
    ensures p.Some? <==> currentStake.Some? && MultiplierFor(score).Some?
    ensures p.Some? && currentStake.value > 0 ==> p.value >= currentStake.value
  {
    if currentStake.None? || MultiplierFor(score).None? then None
    else Some(currentStake.value * MultiplierFor(score).value)
  }

  /** The state fields of the page, as one value. */
  datatype Session = Session(
    phase: Phase, score: int, best: int, t: real, speed: real, zone: Zone,
    stake: int, currentStake: Option<int>, lastTs: Option<real>,
    stakeModalOpen: bool, milestoneModalOpen: bool)

  class BlackPoolGame {
    /** The points ledger the page debits and credits. */
    const points: UserPoints

    var phase: Phase
    var score: int
    var best: int
    var t: real
    var speed: real
    var zone: Zone
    var stake: int
    var currentStake: Option<int>
    var lastTs: Option<real>
    var stakeModalOpen: bool
    var milestoneModalOpen: bool

    function State(): Session
      reads this
    {
      Session(phase, score, best, t, speed, zone, stake, currentStake, lastTs, stakeModalOpen, milestoneModalOpen)
    }

    /**
     * What every reachable state satisfies: the score never passes the last
     * milestone and is below it while playing, a pause is always at a
     * milestone with its decision dialogue open, the speed stays between its
     * start value and its cap, positions are fractions of a lap, a round in
     * progress always has its positive stake recorded, and the stake selector
     * is open only in `idle`.
     */
    ghost predicate Valid()
      reads this, points
    {
      && points.Valid()
      && 0 <= score <= MAX_MILESTONE
      && (phase == Playing ==> score < MAX_MILESTONE)
      && (phase == Paused ==> IsMilestone(score) && score > 0)
      && (milestoneModalOpen <==> phase == Paused)
      && INITIAL_SPEED <= speed <= MAX_SPEED
      && 0.0 <= t < 1.0
      && 0.0 <= zone.start < 1.0 && 0.0 <= zone.end < 1.0
      && best >= 0
      && (currentStake.Some? ==> currentStake.value > 0)
      && (phase == Playing || phase == Paused ==> currentStake.Some?)
      && (stakeModalOpen ==> phase == Idle)
    }

    constructor (ledger: UserPoints)
      requires ledger.Valid()
      ensures Valid() && points == ledger
      ensures State() == Session(Idle, 0, 0, 0.0, INITIAL_SPEED, INITIAL_ZONE, DEFAULT_STAKE, None, None, false, false)
    {
      points := ledger;
      phase, score, best := Idle, 0, 0;
      t, speed, zone := 0.0, INITIAL_SPEED, INITIAL_ZONE;
      stake, currentStake, lastTs := DEFAULT_STAKE, None, None;
      stakeModalOpen, milestoneModalOpen := false, false;
    }

    /** The stake selector's input. */
    method SelectStake(n: int)
      requires Valid()
      modifies this
      ensures Valid()
      ensures State() == old(State()).(stake := n)
    {
      stake := n;
    }

    /** `randomizeZone`, with its two `Math.random()` draws passed in. */
    method RandomizeZone(lenDraw: real, startDraw: real)
      requires Valid()
      requires 0.0 <= lenDraw < 1.0 && 0.0 <= startDraw < 1.0
      modifies this
      ensures Valid()
      ensures State() == old(State()).(zone := RandomZone(lenDraw, startDraw))
    {
      zone := RandomZone(lenDraw, startDraw);
    }

    /**
     * `startGame`: without a profile, or when `min(stake, points)` is not
     * positive, nothing happens.  Otherwise that amount is debited from the
     * ledger and recorded as the round's stake, and a round starts at score 0
     * with the initial speed, a new zone and a random position.  It is only
     * reachable from the stake selector, which is drawn only in `idle`.
     */
    method StartGame(lenDraw: real, startDraw: real, tDraw: real)
      requires Valid() && phase == Idle && stakeModalOpen
      requires 0.0 <= lenDraw < 1.0 && 0.0 <= startDraw < 1.0 && 0.0 <= tDraw < 1.0
      modifies this, points
      ensures Valid()
      ensures var s := StakeFor(old(points.user), old(stake));
        if s.None? then
          State() == old(State()) && points.user == old(points.user)
        else
          && points.user == Some(old(points.user).value.(points := old(points.user).value.points - s.value))
          && State() == old(State()).(
               phase := Playing, score := 0, speed := INITIAL_SPEED,
               zone := RandomZone(lenDraw, startDraw), t := tDraw, currentStake := s,
               stakeModalOpen := false, milestoneModalOpen := false)
    {
      if points.user.None? {
        return;
      }
      var s := Min(stake, points.user.value.points);
      if s <= 0 {
        return;
      }
      ApplyExact(points.user.value.points, s);
      points.AddPoints(-s);
      currentStake := Some(s);
      score := 0;
      speed := INITIAL_SPEED;
      RandomizeZone(lenDraw, startDraw);
      t := tDraw;
      phase := Playing;
      milestoneModalOpen := false;
      stakeModalOpen := false;
    }

    /**
     * The stake selector's form: with a balance below 10 the submission is
     * ignored, otherwise it starts the game.  The page draws the game only
     * for a logged-in profile, so one is always present here.
     */
    method SubmitStake(lenDraw: real, startDraw: real, tDraw: real)
      requires Valid() && phase == Idle && stakeModalOpen && points.user.Some?
      requires 0.0 <= lenDraw < 1.0 && 0.0 <= startDraw < 1.0 && 0.0 <= tDraw < 1.0
      modifies this, points
      ensures Valid()
      ensures old(points.user).value.points < 10 ==> State() == old(State()) && points.user == old(points.user)
      ensures old(points.user).value.points >= 10 ==>
        var s := StakeFor(old(points.user), old(stake));
        if s.None? then
          State() == old(State()) && points.user == old(points.user)
        else
          && points.user == Some(old(points.user).value.(points := old(points.user).value.points - s.value))
          && State() == old(State()).(
               phase := Playing, score := 0, speed := INITIAL_SPEED,
               zone := RandomZone(lenDraw, startDraw), t := tDraw, currentStake := s,
               stakeModalOpen := false, milestoneModalOpen := false)
    {
      if points.user.value.points < 10 {
        return;
      }
      StartGame(lenDraw, startDraw, tDraw);
    }

    /** The stake selector's cancel button: the selector closes and nothing else changes. */
    method CancelStake()
      requires Valid()
      modifies this
      ensures Valid()
      ensures State() == old(State()).(stakeModalOpen := false)
    {
      stakeModalOpen := false;
    }

    /**
     * `onHit`: the score goes up by one, the game pauses for a decision when
     * the new score is a milestone, the speed grows up to its cap and a new
     * zone is drawn.
     */
    method OnHit(lenDraw: real, startDraw: real)
      requires Valid() && phase == Playing
      requires 0.0 <= lenDraw < 1.0 && 0.0 <= startDraw < 1.0
      modifies this
      ensures Valid()
      ensures var pause := IsMilestone(old(score) + 1);
        State() == old(State()).(
          score := old(score) + 1,
          phase := if pause then Paused else Playing,
          milestoneModalOpen := pause,
          speed := NextSpeed(old(speed)),
          zone := RandomZone(lenDraw, startDraw))
    {
      var newScore := score + 1;
      if newScore % MILESTONE_STEP == 0 && newScore <= MAX_MILESTONE {
        phase := Paused;
        milestoneModalOpen := true;
      }
      score := newScore;
      speed := NextSpeed(speed);
      RandomizeZone(lenDraw, startDraw);
    }

    /** `onMiss`: the round is over, the stake already debited is lost, and the best score is kept up to date. */
    method OnMiss()
      requires Valid() && phase == Playing
      modifies this
      ensures Valid()
      ensures State() == old(State()).(phase := Gameover, best := Max(old(best), old(score)))
    {
      phase := Gameover;
      best := Max(best, score);
    }

    /**
     * `handleAction`, the board's click, tap or Space key: in `idle` it only
     * opens the stake selector, while playing it scores a hit or a miss
     * depending on where the marker is, it is ignored while paused, and after
     * a game over it returns to `idle`.
     */
    method HandleAction(lenDraw: real, startDraw: real)
      requires Valid()
      requires 0.0 <= lenDraw < 1.0 && 0.0 <= startDraw < 1.0
      modifies this
      ensures Valid()
      ensures old(phase) == Idle ==> State() == old(State()).(stakeModalOpen := true)
      ensures old(phase) == Playing && IsHit(old(t), old(zone).start, old(zone).end) ==>
        var pause := IsMilestone(old(score) + 1);
        State() == old(State()).(
          score := old(score) + 1,
          phase := if pause then Paused else Playing,
          milestoneModalOpen := pause,
          speed := NextSpeed(old(speed)),
          zone := RandomZone(lenDraw, startDraw))
      ensures old(phase) == Playing && !IsHit(old(t), old(zone).start, old(zone).end) ==>
        State() == old(State()).(phase := Gameover, best := Max(old(best), old(score)))
      ensures old(phase) == Paused ==> State() == old(State())
      ensures old(phase) == Gameover ==> State() == old(State()).(phase := Idle)
    {
      if phase == Idle {
        if !stakeModalOpen {
          stakeModalOpen := true;
          return;
        }
        return;
      }
      if phase == Playing {
        if IsHit(t, zone.start, zone.end) {
          OnHit(lenDraw, startDraw);
        } else {
          OnMiss();
        }
        return;
      }
      if phase == Paused {
        return;
      }
      if phase == Gameover {
        phase := Idle;
      }
    }

    /**
     * The main button above the board: while playing it gives up the round
     * as a miss, in `idle` it opens the stake selector, after a game over it
     * returns to `idle` with the stake selector open.
     */
    method PressMainButton()
      requires Valid()
      modifies this
      ensures Valid()
      ensures old(phase) == Playing ==> State() == old(State()).(phase := Gameover, best := Max(old(best), old(score)))
      ensures old(phase) == Idle ==> State() == old(State()).(stakeModalOpen := true)
      ensures old(phase) == Gameover ==> State() == old(State()).(phase := Idle, stakeModalOpen := true)
      ensures old(phase) == Paused ==> State() == old(State())
    {
      if phase == Playing {
        OnMiss();
        return;
      }
      if phase == Idle {
        stakeModalOpen := true;
        return;
      }
      if phase == Gameover {
        phase := Idle;
        stakeModalOpen := true;
      }
    }

    /**
     * `handleCashOut`: without a recorded stake or off the milestones
     * nothing happens; otherwise `currentStake * multiplierFor(score)` is
     * credited to the ledger, the round is over and the best score is kept
     * up to date.  Its button is in the milestone dialogue, which is drawn
     * only while paused; there a stake is always recorded, so a paused round
     * can always be cashed out.
     */
    method HandleCashOut()
      requires Valid() && phase == Paused
      modifies this, points
      ensures Valid()
      ensures phase == Gameover
      ensures var prize := Prize(old(currentStake), old(score));
        if prize.None? then
          State() == old(State()) && points.user == old(points.user)
        else
          && points.user == (if old(points.user).None? then None
                             else Some(old(points.user).value.(points := old(points.user).value.points + prize.value)))
          && State() == old(State()).(phase := Gameover, milestoneModalOpen := false, best := Max(old(best), old(score)))
    {
      if currentStake.None? {
        return;
      }
      var multi := MultiplierFor(score);
      if multi.None? {
        return;
      }
      var prize := currentStake.value * multi.value;
      if points.user.Some? {
        ApplyExact(points.user.value.points, prize);
      }
      points.AddPoints(prize);
      phase := Gameover;
      milestoneModalOpen := false;
      best := Max(best, score);
    }

    /**
     * `handleContinue`, from the milestone dialogue: refused at the last
     * milestone, so there the round stays paused; otherwise play resumes
     * with the same score, speed and zone.
     */
    method HandleContinue()
      requires Valid() && phase == Paused
      modifies this
      ensures Valid()
      ensures State() == if CanContinue(old(score)) then old(State()).(milestoneModalOpen := false, phase := Playing)
                         else old(State())
    {
      if !CanContinue(score) {
        return;
      }
      milestoneModalOpen := false;
      phase := Playing;
    }

    /**
     * The animation frame callback `step(ts)`: the first frame after
     * (re)subscription counts as no elapsed time; the position moves by
     * `speed * dt` laps only while playing.  Frame timestamps never go back.
     */
    method Step(ts: real)
      requires Valid()
      requires lastTs.Some? ==> ts >= lastTs.value
      modifies this
      ensures Valid()
      ensures var dt := FrameSeconds(old(lastTs), ts);
        State() == old(State()).(
          lastTs := Some(ts),
          t := if old(phase) == Playing then Advance(old(t), old(speed), dt) else old(t))
    {
      var last := if lastTs.None? then ts else lastTs.value;
      var dt := (ts - last) / 1000.0;
      lastTs := Some(ts);
      if phase == Playing {
        assert speed * dt >= 0.0;
        t := Advance(t, speed, dt);
      }
    }

    /**
     * The animation effect's cleanup and re-subscription, which React runs
     * whenever the phase or the speed has changed: the next frame starts
     * without a previous timestamp.
     */
    method RestartAnimation()
      requires Valid()
      modifies this
      ensures Valid()
      ensures State() == old(State()).(lastTs := None)
    {
      lastTs := None;
    }
  }

  /**
   * A whole round: balance 100, the stake selector opened by a click and a
   * stake of 20 submitted, ten hits in a row, a pause at
   * milestone 10 with multiplier 1, and a cash-out that credits 20.
   */
  method MilestoneRound() returns (afterStart: int, pausedAt: int, balance: int, phase: Phase, best: int)
    ensures afterStart == 80 && pausedAt == 10
    ensures balance == 100 && phase == Gameover && best == 10
  {
    var ledger := new UserPoints();
    ledger.Login("Player");
    var game := new BlackPoolGame(ledger);
    game.HandleAction(0.0, 0.0);
    game.SelectStake(20);
    game.SubmitStake(0.0, 0.5, 0.5);
    afterStart := ledger.user.value.points;
    var i := 0;
    while i < 10
      invariant 0 <= i <= 10
      invariant game.Valid() && game.points == ledger
      invariant game.score == i && game.best == 0 && game.currentStake == Some(20)
      invariant ledger.user.Some? && ledger.user.value.points == 80
      invariant game.phase == if i < 10 then Playing else Paused
      invariant game.zone.start == game.t
    {
      IsHitEndpoints(game.t, game.zone.end);
      game.HandleAction(0.0, game.t);
      i := i + 1;
    }
    pausedAt := game.score;
    assert MultiplierFor(game.score) == Some(1);
    game.HandleCashOut();
    balance, phase, best := ledger.user.value.points, game.phase, game.best;
  }

  /**
   * Balance 100 and the default stake of 10 submitted from the selector: the
   * stake is debited, and after a miss and a further action it stays lost.
   */
  method LostRound() returns (afterStart: int, afterMiss: Phase, balance: int)
    ensures afterStart == 90 && afterMiss == Gameover && balance == 90
  {
    var ledger := new UserPoints();
    ledger.Login("Player");
    var game := new BlackPoolGame(ledger);
    game.HandleAction(0.0, 0.0);
    game.SubmitStake(0.0, 0.0, 0.5);
    afterStart := ledger.user.value.points;
    FracOfUnit(0.5);
    FracOfUnit(0.0);
    FracOfUnit(0.06);
    assert !IsHit(game.t, game.zone.start, game.zone.end);
    game.HandleAction(0.0, 0.0);
    afterMiss := game.phase;
    game.HandleAction(0.0, 0.0);
    balance := ledger.user.value.points;
  }
}
