/**
 * The session: three screens (start, playing, results) driven by key
 * presses. A key press on the start screen begins a session, each key press
 * while playing records one tap, and the session ends on its own once the
 * configured number of taps is reached; Enter on the results screen returns
 * to the start screen. The clock is a parameter: `now` is the value the
 * clock reads when the key press arrives.
 */
module Session {
  import opened Stats
  import opened Analysis

  datatype Screen = Start | Playing | Results

  /** Modifier and lock keys never count as taps and never start a session. */
  const ExcludedKeys: seq<string> := ["Shift", "Control", "Alt", "Meta", "CapsLock", "NumLock", "ScrollLock", "Tab"]

  /** What the results summary shows: nothing yet, or the outcome of the last analysis. */
  datatype Summary = Blank | Shown(outcome: Outcome)

  /** The observable state of a session. */
  datatype Snapshot = Snapshot(screen: Screen, hits: seq<real>, metronome: bool, summary: Summary)

  const Initial := Snapshot(Start, [], false, Blank)

  /** Taps a session ends with: the configured count, but at least the one tap that ends it. */
  function Target(totalHits: int): (t: nat)
    ensures t >= 1 && (totalHits >= 1 ==> t == totalHits)
  {
    if totalHits < 1 then 1 else totalHits
  }

  /** Records the tap at time now and, once the count is reached, ends the session and analyses it. */
  function Hit(s: Snapshot, totalHits: int, now: real): Snapshot
    requires |s.hits| + 1 >= totalHits ==> Analyzable(s.hits + [now])
  {
    var hits := s.hits + [now];
    if |hits| >= totalHits then Snapshot(Results, hits, false, Shown(Analyze(hits)))
    else s.(hits := hits)
  }

  /** The analysis can run if this key press is the tap that ends the session. */
  predicate CanStep(s: Snapshot, totalHits: int, key: string, now: real)
  {
    s.screen == Playing && key !in ExcludedKeys && |s.hits| + 1 >= totalHits ==> Analyzable(s.hits + [now])
  }

  /** The state after one key press. */
  function Next(s: Snapshot, totalHits: int, key: string, now: real): Snapshot
    requires CanStep(s, totalHits, key, now)
  {
    match s.screen
    case Results => if key == "Enter" then s.(screen := Start) else s
    case Start => if key in ExcludedKeys then s else s.(screen := Playing, hits := [], metronome := true)
    case Playing => if key in ExcludedKeys then s else Hit(s, totalHits, now)
  }

  /**
   * The invariant of a session: the metronome runs exactly while playing, a
   * running session has fewer taps than its target, and the results screen
   * shows the analysis of exactly the target number of taps.
   */
  predicate Consistent(s: Snapshot, totalHits: int)
  {
    && (s.metronome <==> s.screen == Playing)
    && (s.screen == Playing ==> |s.hits| < Target(totalHits))
    && (s.screen == Results ==> |s.hits| == Target(totalHits) && Analyzable(s.hits) && s.summary == Shown(Analyze(s.hits)))
  }

  lemma InitialConsistent(totalHits: int)
    ensures Consistent(Initial, totalHits)
  {
  }

  /** Every key press keeps the session consistent. */
  lemma NextPreservesConsistent(s: Snapshot, totalHits: int, key: string, now: real)
    requires Consistent(s, totalHits) && CanStep(s, totalHits, key, now)
    ensures Consistent(Next(s, totalHits, key, now), totalHits)
  {
  }

  /**
   * A key press changes nothing exactly when it is anything but Enter on the
   * results screen, or an excluded key on the other screens.
   */
  lemma IgnoredKeys(s: Snapshot, totalHits: int, key: string, now: real)
    requires CanStep(s, totalHits, key, now)
    ensures Next(s, totalHits, key, now) == s <==>
      (s.screen == Results && key != "Enter") || (s.screen != Results && key in ExcludedKeys)
  {
    if s.screen == Playing && key !in ExcludedKeys {
      assert |Next(s, totalHits, key, now).hits| == |s.hits| + 1;
    }
  }

  /** Screens only move forward around the cycle start, playing, results, start. */
  lemma ScreenCycle(s: Snapshot, totalHits: int, key: string, now: real)
    requires CanStep(s, totalHits, key, now)
    ensures Next(s, totalHits, key, now).screen == s.screen
      || (s.screen == Start && Next(s, totalHits, key, now).screen == Playing)
      || (s.screen == Playing && Next(s, totalHits, key, now).screen == Results)
      || (s.screen == Results && Next(s, totalHits, key, now).screen == Start)
  {
  }

  /**
   * A tap while playing appends exactly its timestamp, and ends the session
   * exactly when the count reaches the configured number of taps.
   */
  lemma TapRecordsOne(s: Snapshot, totalHits: int, key: string, now: real)
    requires s.screen == Playing && key !in ExcludedKeys && CanStep(s, totalHits, key, now)
    ensures Next(s, totalHits, key, now).hits == s.hits + [now]
    ensures Next(s, totalHits, key, now).screen == Results <==> |s.hits| + 1 >= totalHits
  {
  }

  /** A sequence of key presses, each with its time, can be replayed: every step may run. */
  predicate RunOk(s: Snapshot, totalHits: int, keys: seq<string>, times: seq<real>)
    decreases |keys|
  {
    |keys| == |times| &&
    (keys != [] ==>
      CanStep(s, totalHits, keys[0], times[0]) &&
      RunOk(Next(s, totalHits, keys[0], times[0]), totalHits, keys[1..], times[1..]))
  }

  /** The state after a sequence of key presses. */
  function Run(s: Snapshot, totalHits: int, keys: seq<string>, times: seq<real>): Snapshot
    requires RunOk(s, totalHits, keys, times)
    decreases |keys|
  {
    if keys == [] then s
    else Run(Next(s, totalHits, keys[0], times[0]), totalHits, keys[1..], times[1..])
  }

  lemma {:induction false} RunPreservesConsistent(s: Snapshot, totalHits: int, keys: seq<string>, times: seq<real>)
    requires Consistent(s, totalHits) && RunOk(s, totalHits, keys, times)
    ensures Consistent(Run(s, totalHits, keys, times), totalHits)
    decreases |keys|
  {
    if keys != [] {
      NextPreservesConsistent(s, totalHits, keys[0], times[0]);
      RunPreservesConsistent(Next(s, totalHits, keys[0], times[0]), totalHits, keys[1..], times[1..]);
    }
  }

  /** No key but Enter leaves the results screen. */
  lemma {:induction false} ResultsAbsorb(s: Snapshot, totalHits: int, keys: seq<string>, times: seq<real>)
    requires s.screen == Results && |keys| == |times| && "Enter" !in keys
    ensures RunOk(s, totalHits, keys, times) && Run(s, totalHits, keys, times) == s
    decreases |keys|
  {
    if keys != [] {
      assert keys[0] != "Enter";
      assert "Enter" !in keys[1..];
      ResultsAbsorb(s, totalHits, keys[1..], times[1..]);
    }
  }

  /**
   * A running session that holds taps h and then receives as many more taps
   * as it still needs ends on the results screen with exactly h followed by
   * those times, analysed. The taps need only leave the analysis possible:
   * equal timestamps are allowed.
   */
  lemma {:induction false} PlayToResults(h: seq<real>, summary: Summary, totalHits: int, keys: seq<string>, times: seq<real>)
    requires |h| < Target(totalHits) && |h| + |times| == Target(totalHits) && |keys| == |times|
    requires forall k :: 0 <= k < |keys| ==> keys[k] !in ExcludedKeys
    requires Analyzable(h + times)
    ensures RunOk(Snapshot(Playing, h, true, summary), totalHits, keys, times)
    ensures Run(Snapshot(Playing, h, true, summary), totalHits, keys, times)
      == Snapshot(Results, h + times, false, Shown(Analyze(h + times)))
    decreases |keys|
  {
    var all := h + times;
    var s := Snapshot(Playing, h, true, summary);
    var h' := h + [times[0]];
    assert all == h' + times[1..];
    assert keys[0] !in ExcludedKeys;
    if |h'| < Target(totalHits) {
      assert Next(s, totalHits, keys[0], times[0]) == Snapshot(Playing, h', true, summary);
      PlayToResults(h', summary, totalHits, keys[1..], times[1..]);
    } else {
      assert times == [times[0]] && all == h';
      ResultsAbsorb(Next(s, totalHits, keys[0], times[0]), totalHits, [], []);
    }
  }

  /**
   * A whole session: from the start screen, a key that is not excluded
   * starts playing, and Target(totalHits) taps whose analysis is possible
   * end on the results screen holding exactly those timestamps and their
   * analysis.
   */
  lemma FullSession(s: Snapshot, totalHits: int, key: string, t: real, keys: seq<string>, times: seq<real>)
    requires s.screen == Start && key !in ExcludedKeys
    requires |keys| == |times| == Target(totalHits) && Analyzable(times)
    requires forall k :: 0 <= k < |keys| ==> keys[k] !in ExcludedKeys
    ensures RunOk(s, totalHits, [key] + keys, [t] + times)
    ensures Run(s, totalHits, [key] + keys, [t] + times) == Snapshot(Results, times, false, Shown(Analyze(times)))
    ensures |Run(s, totalHits, [key] + keys, [t] + times).hits| == Target(totalHits)
  {
    var started := Next(s, totalHits, key, t);
    assert started == Snapshot(Playing, [], true, s.summary);
    assert [] + times == times;
    PlayToResults([], s.summary, totalHits, keys, times);
    assert ([key] + keys)[1..] == keys && ([t] + times)[1..] == times;
  }

  /**
   * A whole session whose last tap is later than its first (as on a clock
   * that never goes back, unless every tap reads the same time) reaches the
   * results screen with exactly its taps analysed.
   */
  lemma SessionEndingLater(s: Snapshot, totalHits: int, key: string, t: real, keys: seq<string>, times: seq<real>)
    requires s.screen == Start && key !in ExcludedKeys
    requires |keys| == |times| == Target(totalHits)
    requires forall k :: 0 <= k < |keys| ==> keys[k] !in ExcludedKeys
    requires |times| >= 2 ==> times[0] < times[|times| - 1]
    ensures Analyzable(times)
    ensures RunOk(s, totalHits, [key] + keys, [t] + times)
    ensures Run(s, totalHits, [key] + keys, [t] + times) == Snapshot(Results, times, false, Shown(Analyze(times)))
  {
    if |times| >= 2 {
      LaterTapAnalyzable(times);
    }
    FullSession(s, totalHits, key, t, keys, times);
  }

  /** The page's session: its state, the taps of the current session and the metronome. */
  class Game {
    var state: Screen
    var hitTimestamps: seq<real>
    var metronomeRunning: bool
    var resultsSummary: Summary
    /** The configured number of taps per session. */
    const totalHits: int

    function Snap(): Snapshot
      reads this
    {
      Snapshot(state, hitTimestamps, metronomeRunning, resultsSummary)
    }

    predicate Valid()
      reads this
    {
      Consistent(Snap(), totalHits)
    }

    constructor (totalHits: int)
      ensures this.totalHits == totalHits && Snap() == Initial && Valid()
    {
      this.totalHits := totalHits;
      state := Start;
      hitTimestamps := [];
      metronomeRunning := false;
      resultsSummary := Blank;
    }

    /**
     * Shows a screen; showing the playing screen also starts a session.
     * A step inside KeyDown and StopGame, not an entry point: on its own it
     * does not keep Valid() (showing results leaves the metronome running).
     */
    method SwitchScreen(screenName: Screen)
      modifies this
      ensures state == screenName && resultsSummary == old(resultsSummary)
      ensures screenName == Playing ==> hitTimestamps == [] && metronomeRunning
      ensures screenName != Playing ==> hitTimestamps == old(hitTimestamps) && metronomeRunning == old(metronomeRunning)
    {
      match screenName
      case Start =>
        state := Start;
      case Playing =>
        state := Playing;
        StartGame();
      case Results =>
        state := Results;
    }

    /**
     * Clears the taps and (re)starts the metronome. A step inside
     * SwitchScreen(Playing), not an entry point: it neither needs nor keeps Valid().
     */
    method StartGame()
      modifies this
      ensures hitTimestamps == [] && metronomeRunning
      ensures state == old(state) && resultsSummary == old(resultsSummary)
    {
      hitTimestamps := [];
      metronomeRunning := true;
    }

    /**
     * Stops the metronome, shows the results screen and the analysis of the
     * taps. A step inside RecordHit, which calls it with exactly the target
     * number of taps; only there does the result satisfy Valid().
     */
    method StopGame()
      modifies this
      requires Analyzable(hitTimestamps)
      ensures state == Results && !metronomeRunning && hitTimestamps == old(hitTimestamps)
      ensures resultsSummary == Shown(Analyze(hitTimestamps))
    {
      metronomeRunning := false;
      SwitchScreen(Results);
      var outcome := AnalyzeAndShowResults(hitTimestamps);
      resultsSummary := Shown(outcome);
    }

    /** Records a tap at time now; the tap that reaches the configured count ends the session. */
    method RecordHit(now: real)
      modifies this
      requires Valid() && state == Playing
      requires |hitTimestamps| + 1 >= totalHits ==> Analyzable(hitTimestamps + [now])
      ensures Snap() == Hit(old(Snap()), totalHits, now)
      ensures Valid()
    {
      hitTimestamps := hitTimestamps + [now];
      if |hitTimestamps| >= totalHits {
        StopGame();
      }
    }

    /** Handles one key press arriving at time now. */
    method KeyDown(key: string, now: real)
      modifies this
      requires Valid() && CanStep(Snap(), totalHits, key, now)
      ensures Snap() == Next(old(Snap()), totalHits, key, now)
      ensures Valid()
    {
      ghost var before := Snap();
      NextPreservesConsistent(before, totalHits, key, now);
      if state == Results {
        if key == "Enter" {
          SwitchScreen(Start);
        }
        return;
      }
      if key in ExcludedKeys {
        return;
      }
      if state == Start {
        SwitchScreen(Playing);
      } else if state == Playing {
        RecordHit(now);
      }
    }
  }
}
