/** The game session as a value and the effect of each event callback on it.
    Every global the script keeps (the running flag, the two interval
    handles, the score and timer text, the score bar, the live drops) is a
    field of `Session`; each callback is a function from the old session to
    the new one. The class in module Game runs the same callbacks in place
    and is proved to agree with these functions. */
module Engine {
  import opened Scoring
  import opened Drops

  /** Timer text `startGame` and `resetGame` write. */
  const RoundSeconds: int := 30
  /** Final score from which the session is won. */
  const WinScore: int := 20
  /** Length of each of the winning and losing message pools. */
  const MessageCount: nat := 5

  datatype Session = Session(
    running: bool,          // gameRunning
    dropMaker: bool,        // dropMaker holds a live createDrop interval
    strayDropMakers: nat,   // createDrop intervals still live whose handle was overwritten
    countdown: bool,        // countdownInterval holds a live countdown interval
    score: int,             // the score element's text, as parseInt reads it
    bar: int,               // the percentage shown by the score bar
    timer: int,             // the timer element's text, as parseInt reads it
    drops: seq<Drop>,       // the live .water-drop elements, in document order
    nextId: nat)            // identity of the next drop element created

  datatype Outcome = Win | Lose

  /** What a countdown tick reports: either it only counted down, or it ended
      the session with an alert built from a message of the outcome's pool
      and the final score, and possibly asked for confetti. */
  datatype TickReport =
    | Counting
    | Ended(outcome: Outcome, message: nat, finalScore: int, confetti: bool)

  /** The page as the script finds it when loaded: no game, no intervals,
      score 0, timer 30 and an empty bar. */
  function Initial(): Session
  {
    Session(false, false, 0, false, 0, 0, RoundSeconds, [], 0)
  }

  /** Number of createDrop intervals that are live and will keep firing. */
  function LiveDropMakers(s: Session): nat
  {
    s.strayDropMakers + if s.dropMaker then 1 else 0
  }

  /** The state every reachable session is in. */
  ghost predicate Valid(s: Session)
  {
    && s.running == s.dropMaker == s.countdown
    && s.strayDropMakers == 0
    && s.score >= 0 && s.bar == ScoreBarPercent(s.score)
    && 0 <= s.timer <= RoundSeconds
    && |s.drops| <= MaxLiveDrops
    && (!s.running ==> s.drops == [])
    && InCreationOrder(s.drops) && IdsBelow(s.drops, s.nextId)
  }

  // ---------------------------------------------------------------------
  // The callbacks
  // ---------------------------------------------------------------------

  /** `setScore(val)`: store the clamped score and redraw the bar from it. */
  function SetScore(s: Session, val: int): (t: Session)
    ensures t.score >= 0 && t.bar == ScoreBarPercent(t.score)
    ensures t.score == Clamp(val)
    ensures t.(score := s.score, bar := s.bar) == s
  {
    s.(score := Clamp(val), bar := ScoreBarPercent(Clamp(val)))
  }

  /** `startGame()`. While a game runs it does nothing. Otherwise it sets the
      flag, schedules createDrop (overwriting the handle without clearing
      it), shows score 0 and timer 30, and replaces any countdown interval
      with a fresh one. The live drops are left alone. */
  function Start(s: Session): Session
  {
    if s.running then s
    else
      var spawning := s.(running := true,
                         strayDropMakers := LiveDropMakers(s),
                         dropMaker := true);
      SetScore(spawning, 0).(timer := RoundSeconds, countdown := true)
  }

  /** `resetGame()`: clear both handles, remove every drop, show score 0 and
      timer 30, then `startGame()`. */
  function Reset(s: Session): Session
  {
    var stopped := s.(running := false, dropMaker := false, countdown := false, drops := []);
    Start(SetScore(stopped, 0).(timer := RoundSeconds))
  }

  /** The countdown callback. `pick` is the message index the random draw
      selects. While time is left it counts down; at zero it clears both
      intervals, reports the outcome against the score shown at that moment,
      then shows score 0 and timer 0 and removes every drop. */
  function Tick(s: Session, pick: nat): (Session, TickReport)
  {
    if s.timer > 0 then
      (s.(timer := s.timer - 1), Counting)
    else
      var stopped := s.(dropMaker := false, countdown := false, running := false);
      var outcome := if s.score >= WinScore then Win else Lose;
      var rest := SetScore(stopped, 0).(timer := 0, drops := []);
      (rest, Ended(outcome, pick, s.score, outcome == Win))
  }

  /** `createDrop()`. `bomb` is whether the random draw appends the bomb. */
  function Spawn(s: Session, bomb: bool): Session
  {
    s.(drops := Spawned(s.drops, s.nextId, bomb), nextId := s.nextId + 3)
  }

  /** The click handler of the drop at position `i`: it removes itself and
      applies its kind's score change through `setScore`. */
  function Catch(s: Session, i: nat): Session
    requires i < |s.drops|
  {
    SetScore(s.(drops := RemoveAt(s.drops, i)), s.score + ClickDelta(s.drops[i].kind))
  }

  /** The animationend handler of the drop at position `i`: it removes
      itself; the score is untouched. */
  function Expire(s: Session, i: nat): Session
    requires i < |s.drops|
  {
    s.(drops := RemoveAt(s.drops, i))
  }

  // ---------------------------------------------------------------------
  // One callback at a time
  // ---------------------------------------------------------------------

  /** Everything that can run: the two buttons, the two interval callbacks
      and the two handlers of a live drop. */
  datatype Event =
    | StartClick
    | ResetClick
    | SpawnFire(bomb: bool)
    | CountdownFire(pick: nat)
    | DropClick(i: nat)
    | DropExpire(i: nat)

  /** Whether the browser can deliver `e` now: an interval callback only
      while an interval of that kind is live, a message index only within
      its pool, a drop handler only for a drop in the document. */
  predicate Enabled(s: Session, e: Event)
  {
    match e
    case StartClick => true
    case ResetClick => true
    case SpawnFire(_) => LiveDropMakers(s) > 0
    case CountdownFire(pick) => s.countdown && pick < MessageCount
    case DropClick(i) => i < |s.drops|
    case DropExpire(i) => i < |s.drops|
  }

  /** The session after `e` runs to completion; an event that cannot be
      delivered changes nothing. */
  function Step(s: Session, e: Event): Session
  {
    if !Enabled(s, e) then s
    else
      match e
      case StartClick => Start(s)
      case ResetClick => Reset(s)
      case SpawnFire(bomb) => Spawn(s, bomb)
      case CountdownFire(pick) => Tick(s, pick).0
      case DropClick(i) => Catch(s, i)
      case DropExpire(i) => Expire(s, i)
  }

  /** The session after the events run one after another. */
  function Run(s: Session, events: seq<Event>): Session
    decreases |events|
  {
    if events == [] then s else Run(Step(s, events[0]), events[1..])
  }

  // ---------------------------------------------------------------------
  // Properties of each callback
  // ---------------------------------------------------------------------

  /** The guard: a second start while a game runs changes nothing. A start
      from a valid idle session leaves a running game with exactly one
      interval of each kind, score 0 and timer 30. */
  lemma StartGuard(s: Session)
    ensures s.running ==> Start(s) == s
    ensures Valid(s) && !s.running ==>
              var t := Start(s);
              Valid(t) && t.running && LiveDropMakers(t) == 1 && t.countdown &&
              t.score == 0 && t.bar == 0 && t.timer == RoundSeconds && t.drops == []
  {
  }

  /** From any session at all, a reset leaves a running game with no drops,
      score 0, an empty bar, timer 30 and both handles set. Its one
      createDrop interval comes on top of any that were already stray, so the
      invariant is restored exactly when there were none. */
  lemma ResetFromAnyState(s: Session)
    ensures var t := Reset(s);
      t.running && t.dropMaker && t.countdown &&
      t.score == 0 && t.bar == 0 && t.timer == RoundSeconds && t.drops == [] &&
      LiveDropMakers(t) == s.strayDropMakers + 1
    ensures Valid(Reset(s)) <==> s.strayDropMakers == 0
  {
  }

  /** A tick with time left decrements the timer by one and touches nothing
      else, so a valid timer stays within 0..30. */
  lemma TickCountsDown(s: Session, pick: nat)
    requires s.timer > 0
    ensures Tick(s, pick).1 == Counting
    ensures Tick(s, pick).0.timer == s.timer - 1
    ensures Tick(s, pick).0.(timer := s.timer) == s
    ensures Valid(s) ==> Valid(Tick(s, pick).0)
  {
  }

  /** A tick at zero ends the session: both intervals cleared and the flag
      down; won exactly when the final score is at least 20, confetti only
      for a win; afterwards score 0, timer 0 and no drops. */
  lemma TickEndsSession(s: Session, pick: nat)
    requires Valid(s) && s.timer == 0
    ensures var (t, report) := Tick(s, pick);
      && report.Ended? && report.finalScore == s.score && report.message == pick
      && (report.outcome == Win <==> s.score >= WinScore)
      && (report.confetti <==> report.outcome == Win)
      && !t.running && !t.dropMaker && !t.countdown && LiveDropMakers(t) == 0
      && t.score == 0 && t.bar == 0 && t.timer == 0 && t.drops == []
      && Valid(t)
  {
  }

  /** `createDrop` evicts the oldest `count - 14` drops once 15 are live,
      keeps the rest in order ahead of a good drop, a bad drop and the bomb
      when drawn, and never leaves more than 17 drops live. */
  lemma SpawnEffect(s: Session, bomb: bool)
    ensures var t := Spawn(s, bomb);
      var kept := if |s.drops| >= MaxDrops then MaxDrops - 1 else |s.drops|;
      && |t.drops| == kept + (if bomb then 3 else 2) <= MaxLiveDrops
      && t.drops[..kept] == s.drops[|s.drops| - kept..]
      && t.drops[kept].kind == Good && t.drops[kept + 1].kind == Bad
      && (bomb ==> t.drops[kept + 2].kind == Bomb)
      && t.(drops := s.drops, nextId := s.nextId) == s
  {
    SpawnedShape(s.drops, s.nextId, bomb);
  }

  /** A spawn while a createDrop interval is live keeps the invariant. */
  lemma SpawnKeepsValid(s: Session, bomb: bool)
    requires Valid(s) && LiveDropMakers(s) > 0
    ensures Valid(Spawn(s, bomb))
  {
    SpawnedShape(s.drops, s.nextId, bomb);
    SpawnedInOrder(s.drops, s.nextId, bomb);
  }

  /** Clicking a drop removes exactly that drop, keeps the others in order
      and applies its kind's change through the clamp: +1, -1 or -5, never
      below 0. Nothing else changes. */
  lemma CatchEffect(s: Session, i: nat)
    requires i < |s.drops|
    ensures var t := Catch(s, i);
      && multiset(t.drops) + multiset{s.drops[i]} == multiset(s.drops)
      && t.drops == s.drops[..i] + s.drops[i + 1..]
      && t.score == Clamp(s.score + ClickDelta(s.drops[i].kind))
      && t.score >= 0 && t.bar == ScoreBarPercent(t.score)
      && t.(drops := s.drops, score := s.score, bar := s.bar) == s
    ensures Valid(s) ==>
      && Valid(Catch(s, i))
      && forall j :: 0 <= j < |Catch(s, i).drops| ==> Catch(s, i).drops[j].id != s.drops[i].id
  {
    RemoveAtExactlyOne(s.drops, i);
    if Valid(s) {
      RemoveAtInOrder(s.drops, i);
      RemoveAtIdsBelow(s.drops, i, s.nextId);
    }
  }

  /** A bad click or a bomb click at a low score leaves the score at 0. */
  lemma PenaltyFloorsAtZero(s: Session, i: nat)
    requires i < |s.drops| && s.drops[i].kind != Good
    requires 0 <= s.score <= -ClickDelta(s.drops[i].kind)
    ensures Catch(s, i).score == 0
  {
  }

  /** An expired drop is removed and nothing else changes. */
  lemma ExpireEffect(s: Session, i: nat)
    requires i < |s.drops|
    ensures var t := Expire(s, i);
      && multiset(t.drops) + multiset{s.drops[i]} == multiset(s.drops)
      && t.drops == s.drops[..i] + s.drops[i + 1..]
      && t.(drops := s.drops) == s
    ensures Valid(s) ==> Valid(Expire(s, i))
  {
    RemoveAtExactlyOne(s.drops, i);
    if Valid(s) {
      RemoveAtInOrder(s.drops, i);
      RemoveAtIdsBelow(s.drops, i, s.nextId);
    }
  }

  /** `n` countdown ticks in a row, each drawing message index 0. */
  function Ticks(n: nat): (events: seq<Event>)
    ensures |events| == n
    ensures forall k :: 0 <= k < n ==> events[k] == CountdownFire(0)
  {
    if n == 0 then [] else [CountdownFire(0)] + Ticks(n - 1)
  }

  /** While the countdown interval is live, `n` ticks with at least `n`
      seconds shown only take `n` off the timer. */
  lemma {:induction false} TicksCountDown(s: Session, n: nat)
    requires s.countdown && n <= s.timer
    ensures Run(s, Ticks(n)) == s.(timer := s.timer - n)
    decreases n
  {
    if n > 0 {
      assert Ticks(n)[0] == CountdownFire(0);
      assert Ticks(n)[1..] == Ticks(n - 1);
      TicksCountDown(s.(timer := s.timer - 1), n - 1);
    }
  }

  /** A session started from a valid idle page is still running after 30
      ticks, with the timer at 0 and its score and drops untouched by the
      countdown; only the 31st tick ends it. */
  lemma SessionEndsOnTick31(s: Session, pick: nat)
    requires Valid(s) && !s.running
    ensures var last := Run(Start(s), Ticks(RoundSeconds));
      && last.running && last.countdown && last.timer == 0
      && last == Start(s).(timer := 0)
      && Tick(last, pick).1.Ended?
  {
    TicksCountDown(Start(s), RoundSeconds);
  }

  // ---------------------------------------------------------------------
  // Properties of every run
  // ---------------------------------------------------------------------

  /** Every callback keeps the invariant. */
  lemma StepKeepsValid(s: Session, e: Event)
    requires Valid(s)
    ensures Valid(Step(s, e))
  {
    if Enabled(s, e) {
      match e
      case StartClick => StartGuard(s);
      case ResetClick => ResetFromAnyState(s);
      case SpawnFire(bomb) => SpawnKeepsValid(s, bomb);
      case CountdownFire(pick) =>
        if s.timer > 0 { TickCountsDown(s, pick); } else { TickEndsSession(s, pick); }
      case DropClick(i) => CatchEffect(s, i);
      case DropExpire(i) => ExpireEffect(s, i);
    }
  }

  lemma {:induction false} RunKeepsValid(s: Session, events: seq<Event>)
    requires Valid(s)
    ensures Valid(Run(s, events))
    decreases |events|
  {
    if events != [] {
      StepKeepsValid(s, events[0]);
      RunKeepsValid(Step(s, events[0]), events[1..]);
    }
  }

  /** Whatever the player and the intervals do from page load: the score is
      never negative, the timer stays within 0..30, at most 17 drops are
      live, the flag is up exactly when both intervals are live, no interval
      is live while the flag is down, and at most one createDrop interval is
      ever live. */
  lemma EveryRunFromLoad(events: seq<Event>)
    ensures var t := Run(Initial(), events);
      && t.score >= 0 && 0 <= t.bar <= 100
      && 0 <= t.timer <= RoundSeconds
      && |t.drops| <= MaxLiveDrops
      && (t.running <==> LiveDropMakers(t) == 1 && t.countdown)
      && (!t.running ==> !t.countdown && LiveDropMakers(t) == 0)
      && LiveDropMakers(t) <= 1
  {
    RunKeepsValid(Initial(), events);
    var t := Run(Initial(), events);
    ScoreBarFullExactly(t.score);
  }
}
