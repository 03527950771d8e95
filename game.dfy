/** The script's globals as the fields of one object, and its functions and
    callbacks as methods that update them in place. Each callback method is
    proved to leave the object in the session that the matching function of
    module Engine computes from the old one, and to keep the invariant. */
module Game {
  import opened Scoring
  import opened Drops
  import opened Engine

  class WaterDropGame {
    var gameRunning: bool
    var dropMaker: bool
    var strayDropMakers: nat
    var countdownInterval: bool
    var score: int
    var bar: int
    var timer: int
    var drops: seq<Drop>
    var nextId: nat

    /** The fields as one session value. */
    function State(): Session
      reads this
    {
      Session(gameRunning, dropMaker, strayDropMakers, countdownInterval,
              score, bar, timer, drops, nextId)
    }

    ghost predicate Valid()
      reads this
    {
      Engine.Valid(State())
    }

    /** The state when the script has loaded. */
    constructor ()
      ensures Valid() && State() == Initial()
    {
      gameRunning, dropMaker, strayDropMakers, countdownInterval := false, false, 0, false;
      score, bar, timer := 0, 0, RoundSeconds;
      drops, nextId := [], 0;
    }

    /** `updateScoreBar()`: redraw the bar from the score shown. */
    method UpdateScoreBar()
      modifies this`bar
      ensures bar == ScoreBarPercent(score)
    {
      var rounded := (20 * score + 3) / 6;
      bar := if rounded < 100 then rounded else 100;
    }

    /** `setScore(val)`. */
    method SetScore(val: int)
      modifies this`score, this`bar
      ensures State() == Engine.SetScore(old(State()), val)
    {
      score := if val < 0 then 0 else val;
      UpdateScoreBar();
    }

    /** `while (drops[0]) drops[0].remove()`: take the first drop off until
        none is left. */
    method RemoveAllDrops()
      modifies this`drops
      ensures drops == []
    {
      while |drops| > 0
        decreases |drops|
      {
        drops := drops[1..];
      }
    }

    /** `startGame()`. */
    method StartGame()
      modifies this
      ensures State() == Start(old(State()))
      ensures old(Valid()) ==> Valid()
    {
      StartGuard(State());
      if gameRunning {
        return;
      }
      gameRunning := true;
      if dropMaker {
        strayDropMakers := strayDropMakers + 1;
      }
      dropMaker := true;
      SetScore(0);
      timer := RoundSeconds;
      if countdownInterval {
        countdownInterval := false;
      }
      countdownInterval := true;
    }

    /** `resetGame()`. */
    method ResetGame()
      modifies this
      ensures State() == Reset(old(State()))
      ensures Valid() <==> old(strayDropMakers) == 0
    {
      ResetFromAnyState(State());
      gameRunning := false;
      if dropMaker {
        dropMaker := false;
      }
      if countdownInterval {
        countdownInterval := false;
      }
      RemoveAllDrops();
      SetScore(0);
      timer := RoundSeconds;
      StartGame();
    }

    /** The countdown callback; `pick` is the drawn message index. */
    method CountdownTick(pick: nat) returns (report: TickReport)
      requires countdownInterval && pick < MessageCount
      modifies this
      ensures (State(), report) == Tick(old(State()), pick)
      ensures old(Valid()) ==> Valid()
    {
      ghost var s := State();
      if timer > 0 {
        TickCountsDown(s, pick);
        timer := timer - 1;
        report := Counting;
      } else {
        if Engine.Valid(s) {
          TickEndsSession(s, pick);
        }
        if dropMaker {
          dropMaker := false;
        }
        if countdownInterval {
          countdownInterval := false;
        }
        gameRunning := false;
        var finalScore := score;
        var outcome := if finalScore >= WinScore then Win else Lose;
        report := Ended(outcome, pick, finalScore, outcome == Win);
        SetScore(0);
        timer := 0;
        RemoveAllDrops();
      }
    }

    /** The cap check of `createDrop()`: with 15 or more drops live, remove
        the oldest `count - 14` of them, in document order. */
    method EvictOldest()
      modifies this`drops
      ensures drops == Evict(old(drops))
    {
      var allDrops := drops;
      if |allDrops| >= MaxDrops {
        // Each pass removes allDrops[i], which is then the first live drop.
        for i := 0 to |allDrops| - MaxDrops + 1
          invariant drops == allDrops[i..]
        {
          drops := drops[1..];
        }
      }
    }

    /** The appends of `createDrop()`: the good drop, the bad drop and, when
        drawn, the bomb, created with identities from `first` on. */
    method AppendNewDrops(first: nat, bomb: bool)
      modifies this`drops
      ensures drops == old(drops) + NewDrops(first, bomb)
    {
      var good, bad, bombDrop := Drop(first, Good), Drop(first + 1, Bad), Drop(first + 2, Bomb);
      drops := drops + [good];
      drops := drops + [bad];
      if bomb {
        drops := drops + [bombDrop];
      }
    }

    /** `createDrop()`; `bomb` is whether the random draw appends the bomb. */
    method CreateDrop(bomb: bool)
      requires Valid() && LiveDropMakers(State()) > 0
      modifies this`drops, this`nextId
      ensures Valid() && State() == Spawn(old(State()), bomb)
    {
      ghost var s := State();
      var first := nextId;
      nextId := nextId + 3;
      EvictOldest();
      AppendNewDrops(first, bomb);
      SpawnKeepsValid(s, bomb);
    }

    /** The click handler of the drop at position `i`. */
    method ClickDrop(i: nat)
      requires Valid() && i < |drops|
      modifies this
      ensures Valid() && State() == Catch(old(State()), i)
    {
      CatchEffect(State(), i);
      var kind := drops[i].kind;
      drops := drops[..i] + drops[i + 1..];
      SetScore(score + ClickDelta(kind));
    }

    /** The animationend handler of the drop at position `i`. */
    method DropAnimationEnd(i: nat)
      requires Valid() && i < |drops|
      modifies this
      ensures Valid() && State() == Expire(old(State()), i)
    {
      ExpireEffect(State(), i);
      drops := drops[..i] + drops[i + 1..];
    }
  }
}
