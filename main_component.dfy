/**
 * The player component: it owns the timeline counter, the in-progress
 * flag and the handle of its ticking interval. The browser's timer table
 * is part of the model: `intervals` holds the handles of the intervals
 * that are still live (not yet cleared), and `nextHandle` is the handle
 * the next `setInterval` gives out. A tick is an explicit call of
 * ProgressTimeline, which the environment makes only while some interval
 * is live.
 */
module MainComponent {
  import opened Wrappers
  import opened Transcript
  import opened Timeline

  /** The intervals that clearing the stored handle cancels: that one, or none when no handle was stored. */
  function ClearedBy(ticking: Option<nat>): set<nat>
  {
    if ticking.Some? then {ticking.value} else {}
  }

  class Main {
    const speakers: seq<Speaker>
    const utterances: seq<Utterance>
    /** The tick size in milliseconds, both the interval's period and the step of each tick. */
    const tickingFrequency: int
    const speakersById: map<int, string>
    const endOfTimeline: real

    var timeline: int
    var inProgress: bool
    /** The handle last returned by setInterval; clearing an interval does not reset it. */
    var ticking: Option<nat>
    var intervals: set<nat>
    var nextHandle: nat

    /** Everything but the timeline range: the derived tables and the handle bookkeeping. */
    ghost predicate Sound()
      reads this
    {
      && 0 < tickingFrequency
      && speakersById == SpeakersById(speakers)
      && endOfTimeline == EndOfTimeline(utterances)
      && 0 <= timeline
      && 0 < nextHandle
      && (forall h :: h in intervals ==> 0 < h < nextHandle)
      && (ticking.Some? ==> 0 < ticking.value < nextHandle)
    }

    /** The object invariant: once a tick has settled, the timeline is below the end unless it is at 0. */
    ghost predicate Valid()
      reads this
    {
      Sound() && (timeline == 0 || timeline as real < endOfTimeline)
    }

    /** Exactly the stored interval is live while in progress, and none is live otherwise. */
    ghost predicate OneIntervalWhileInProgress()
      reads this
    {
      if inProgress then ticking.Some? && intervals == {ticking.value} else intervals == {}
    }

    /** Builds the speaker table and the end of the timeline once; starts stopped at 0. */
    constructor (speakers: seq<Speaker>, utterances: seq<Utterance>, tickingFrequency: int)
      requires 0 < tickingFrequency
      ensures Valid() && OneIntervalWhileInProgress()
      ensures this.speakers == speakers && this.utterances == utterances
      ensures this.tickingFrequency == tickingFrequency
      ensures timeline == 0 && !inProgress && ticking == None && intervals == {}
    {
      this.speakers := speakers;
      this.utterances := utterances;
      this.tickingFrequency := tickingFrequency;
      speakersById := SpeakersById(speakers);
      endOfTimeline := EndOfTimeline(utterances);
      timeline := 0;
      inProgress := false;
      ticking := None;
      intervals := {};
      nextHandle := 1;
    }

    /** Whether a word is highlighted at the current timeline value. */
    function DetermineIfActive(word: Word): (active: bool)
      reads this
      ensures active == IsActive(word, timeline)
      ensures active ==> !word.isSymbol && StartMs(word) <= timeline as real <= EndMs(word)
    {
      IsActive(word, timeline)
    }

    /** The name of the last speaker with this id, or nothing when no speaker has it. */
    function GetSpeakerById(id: int): (name: Option<string>)
      reads this
      requires Sound()
      ensures name.None? <==> forall k :: 0 <= k < |speakers| ==> speakers[k].id != id
      ensures name.Some? ==>
        exists k :: 0 <= k < |speakers| && speakers[k].id == id && speakers[k].name == name.value &&
          forall j :: k < j < |speakers| ==> speakers[j].id != id
    {
      LookupFindsLastSpeaker(speakers, id);
      Lookup(speakersById, id)
    }

    /** The buttons enabled in the current state. */
    function Buttons(): (buttons: Controls)
      reads this
      ensures buttons == EnabledControls(timeline, inProgress)
      ensures buttons.start == !inProgress && buttons.pause == inProgress
    {
      EnabledControls(timeline, inProgress)
    }

    /** Installs a new interval and stores its handle, overwriting any handle stored before. */
    method StartTicking()
      requires Sound()
      modifies this
      ensures Sound()
      ensures old(Valid()) ==> Valid()
      ensures ticking == Some(old(nextHandle)) && nextHandle == old(nextHandle) + 1
      ensures intervals == old(intervals) + {old(nextHandle)}
      ensures timeline == old(timeline) && inProgress == old(inProgress)
    {
      ticking := Some(nextHandle);
      intervals := intervals + {nextHandle};
      nextHandle := nextHandle + 1;
    }

    /** Clears the interval whose handle is stored; the handle itself stays stored. */
    method StopTicking()
      requires Sound()
      modifies this
      ensures Sound()
      ensures old(Valid()) ==> Valid()
      ensures intervals == old(intervals) - ClearedBy(old(ticking))
      ensures ticking == old(ticking) && nextHandle == old(nextHandle)
      ensures timeline == old(timeline) && inProgress == old(inProgress)
    {
      intervals := intervals - ClearedBy(ticking);
    }

    /**
     * Sets the player in progress and installs a new interval. Called while
     * already in progress, it leaves the earlier interval live.
     */
    method StartTimeline()
      requires Valid()
      modifies this
      ensures Valid()
      ensures inProgress && timeline == old(timeline)
      ensures ticking == Some(old(nextHandle)) && nextHandle == old(nextHandle) + 1
      ensures intervals == old(intervals) + {old(nextHandle)}
      ensures old(!inProgress && OneIntervalWhileInProgress()) ==> OneIntervalWhileInProgress()
      ensures Buttons() == Controls(false, true, timeline != 0)
    {
      inProgress := true;
      StartTicking();
    }

    /** Takes the player out of progress and clears the stored interval; the timeline keeps its value. */
    method PauseTimeline()
      requires Sound()
      modifies this
      ensures Sound()
      ensures old(Valid()) ==> Valid()
      ensures !inProgress && timeline == old(timeline)
      ensures ticking == old(ticking) && nextHandle == old(nextHandle)
      ensures intervals == old(intervals) - ClearedBy(old(ticking))
      ensures old(OneIntervalWhileInProgress()) ==> OneIntervalWhileInProgress() && intervals == {}
      ensures Buttons() == Controls(true, false, timeline != 0)
    {
      inProgress := false;
      StopTicking();
    }

    /** Puts the timeline back to 0 and pauses, from any state. */
    method RestartTimeline()
      requires Sound()
      modifies this
      ensures Valid()
      ensures timeline == 0 && !inProgress
      ensures ticking == old(ticking) && nextHandle == old(nextHandle)
      ensures intervals == old(intervals) - ClearedBy(old(ticking))
      ensures old(OneIntervalWhileInProgress()) ==> OneIntervalWhileInProgress() && intervals == {}
      ensures Buttons() == Controls(true, false, false)
    {
      timeline := 0;
      PauseTimeline();
    }

    /**
     * One tick: advances the timeline by the tick size, then restarts when
     * the new value has reached the end of the timeline.
     */
    method ProgressTimeline()
      requires Valid()
      requires intervals != {}
      modifies this
      ensures Valid()
      ensures timeline == NextTimeline(old(timeline), tickingFrequency, endOfTimeline)
      ensures 0 <= timeline && timeline as real <= endOfTimeline
      ensures ticking == old(ticking) && nextHandle == old(nextHandle)
      ensures if (old(timeline) + tickingFrequency) as real >= endOfTimeline
        then !inProgress && intervals == old(intervals) - ClearedBy(old(ticking))
        else inProgress == old(inProgress) && intervals == old(intervals)
      ensures old(OneIntervalWhileInProgress()) ==> OneIntervalWhileInProgress()
    {
      timeline := timeline + tickingFrequency;
      if timeline as real >= endOfTimeline {
        RestartTimeline();
      }
    }

    /** On unmount, clears the stored interval if a handle was ever stored. */
    method ComponentWillUnmount()
      requires Sound()
      modifies this
      ensures Sound()
      ensures old(Valid()) ==> Valid()
      ensures intervals == old(intervals) - ClearedBy(old(ticking))
      ensures ticking == old(ticking) && nextHandle == old(nextHandle)
      ensures timeline == old(timeline) && inProgress == old(inProgress)
      ensures old(OneIntervalWhileInProgress()) ==> intervals == {}
    {
      if ticking.Some? {
        StopTicking();
      }
    }
  }

  /**
   * One word ending at 3000 ms and ticks of 1000 ms: after two ticks the
   * player runs at 2000 ms; the third tick reaches the end and restarts,
   * leaving the player stopped at 0 with no interval live.
   */
  method AutoRestartScenario() returns (timeline: int, inProgress: bool, live: nat)
    ensures timeline == 0 && !inProgress && live == 0
  {
    var words := [Word("hello", 2.0, 1.0, false)];
    assert WordsEnd(words) == 3000.0 by {
      assert words[..0] == [];
    }
    var utterances := [Utterance(1, words)];
    assert EndOfTimeline(utterances) == 3000.0 by {
      assert utterances[..0] == [];
    }
    var m := new Main([Speaker(1, "Ada")], utterances, 1000);
    m.StartTimeline();
    m.ProgressTimeline();
    m.ProgressTimeline();
    assert m.timeline == 2000 && m.inProgress;
    m.ProgressTimeline();
    timeline, inProgress, live := m.timeline, m.inProgress, |m.intervals|;
  }

  /**
   * Start, one tick, pause, restart, with one word ending at 3000 ms and
   * ticks of 1000 ms: the player runs, is paused at 1000 ms with no interval
   * live, and is then stopped at 0, still with no interval live, so no tick
   * can change the timeline afterwards.
   */
  method StartPauseRestartScenario() returns (pausedAt: int, afterPause: nat, afterRestart: nat, timeline: int)
    ensures pausedAt == 1000 && afterPause == 0
    ensures afterRestart == 0 && timeline == 0
  {
    var words := [Word("hello", 2.0, 1.0, false)];
    assert WordsEnd(words) == 3000.0 by {
      assert words[..0] == [];
    }
    var utterances := [Utterance(1, words)];
    assert EndOfTimeline(utterances) == 3000.0 by {
      assert utterances[..0] == [];
    }
    var m := new Main([], utterances, 1000);
    m.StartTimeline();
    m.ProgressTimeline();
    assert m.inProgress;
    m.PauseTimeline();
    assert PhaseOf(m.timeline, m.inProgress) == Paused;
    pausedAt, afterPause := m.timeline, |m.intervals|;
    m.RestartTimeline();
    assert PhaseOf(m.timeline, m.inProgress) == Stopped;
    afterRestart, timeline := |m.intervals|, m.timeline;
  }

  /**
   * Starting twice leaves the first interval live: after a pause one
   * interval still runs, and its tick advances the paused timeline.
   */
  method DoubleStartLeaksScenario() returns (live: nat, timeline: int, inProgress: bool)
    ensures live == 1 && timeline == 1000 && !inProgress
  {
    var words := [Word("hello", 2.0, 1.0, false)];
    assert WordsEnd(words) == 3000.0 by {
      assert words[..0] == [];
    }
    var utterances := [Utterance(1, words)];
    assert EndOfTimeline(utterances) == 3000.0 by {
      assert utterances[..0] == [];
    }
    var m := new Main([], utterances, 1000);
    m.StartTimeline();
    m.StartTimeline();
    m.PauseTimeline();
    live := |m.intervals|;
    m.ProgressTimeline();
    timeline, inProgress := m.timeline, m.inProgress;
  }
}
