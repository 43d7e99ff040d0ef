/**
 * The pure logic of the player component: whether a word is highlighted at
 * a timeline value, the end of the timeline, the speaker table, the value a
 * tick leaves on the timeline, and which controls are enabled.
 */
module Timeline {
  import opened Wrappers
  import opened Transcript

  // ----- Activation -----

  /** A word is highlighted when it is not a symbol and the timeline lies in its closed window. */
  function IsActive(w: Word, timeline: int): (r: bool)
    ensures w.isSymbol ==> !r
    ensures r ==> w.duration >= 0.0 && StartMs(w) <= timeline as real <= EndMs(w)
  {
    if w.isSymbol then false
    else timeline as real >= StartMs(w) && timeline as real <= EndMs(w)
  }

  /** Symbols (punctuation) are never highlighted, whatever the timeline. */
  lemma SymbolNeverActive(w: Word, timeline: int)
    requires w.isSymbol
    ensures !IsActive(w, timeline)
  {
  }

  /**
   * Both ends of the window are inclusive: a word whose window is [s, e]
   * is highlighted at s and at e, and not one millisecond outside.
   */
  lemma ActiveOnClosedWindow(w: Word, s: int, e: int)
    requires !w.isSymbol && StartMs(w) == s as real && EndMs(w) == e as real
    requires s <= e
    ensures IsActive(w, s) && IsActive(w, e)
    ensures !IsActive(w, s - 1) && !IsActive(w, e + 1)
    ensures forall t :: IsActive(w, t) <==> s <= t <= e
  {
  }

  /** A word of zero duration is highlighted at exactly its start and at no other value. */
  lemma ZeroDurationActiveOnlyAtStart(w: Word, timeline: int)
    requires !w.isSymbol && w.duration == 0.0
    ensures IsActive(w, timeline) <==> timeline as real == StartMs(w)
  {
  }

  /** A word with a negative duration has an empty window and is never highlighted. */
  lemma NegativeDurationNeverActive(w: Word, timeline: int)
    requires w.duration < 0.0
    ensures !IsActive(w, timeline)
  {
  }

  /** The values at which a word is highlighted form one contiguous run. */
  lemma ActiveWindowIsContiguous(w: Word, a: int, b: int, t: int)
    requires IsActive(w, a) && IsActive(w, b) && a <= t <= b
    ensures IsActive(w, t)
  {
  }

  /**
   * Two words that meet, the second starting where the first ends, are
   * both highlighted at the shared boundary millisecond.
   */
  lemma AdjacentWordsBothActiveAtBoundary(w1: Word, w2: Word, t: int)
    requires !w1.isSymbol && !w2.isSymbol
    requires w1.duration >= 0.0 && w2.duration >= 0.0
    requires StartMs(w2) == EndMs(w1) && t as real == EndMs(w1)
    ensures IsActive(w1, t) && IsActive(w2, t)
  {
  }

  /** A word starting at 1.0 s and lasting 0.5 s is highlighted at 1200 ms, not at 1600 ms. */
  lemma HalfSecondWordScenario()
    ensures IsActive(Word("ahead", 1.0, 0.5, false), 1200)
    ensures !IsActive(Word("ahead", 1.0, 0.5, false), 1600)
  {
  }

  /** A symbol starting at 2.0 s is not highlighted at 2000 ms, its own start. */
  lemma SymbolAtItsStartScenario()
    ensures !IsActive(Word(".", 2.0, 0.0, true), 2000)
  {
  }

  // ----- End of the timeline -----

  /**
   * The latest end time of a run of words, folded from the left starting
   * at 0: each word replaces the running value when it ends later.
   */
  function WordsEnd(words: seq<Word>): (r: real)
    ensures 0.0 <= r
    ensures forall j :: 0 <= j < |words| ==> EndMs(words[j]) <= r
    ensures r == 0.0 || exists j :: 0 <= j < |words| && EndMs(words[j]) == r
    decreases |words|
  {
    if |words| == 0 then 0.0
    else
      var prev := WordsEnd(words[..|words| - 1]);
      var endTime := EndMs(words[|words| - 1]);
      if endTime > prev then endTime else prev
  }

  /**
   * When the timeline restarts on its own: the latest word end over all
   * utterances, folded from the left starting at 0.
   */
  function EndOfTimeline(utterances: seq<Utterance>): (r: real)
    ensures 0.0 <= r
    ensures forall i, j :: 0 <= i < |utterances| && 0 <= j < |utterances[i].words| ==>
      EndMs(utterances[i].words[j]) <= r
    ensures r == 0.0 || exists i, j ::
      0 <= i < |utterances| && 0 <= j < |utterances[i].words| && EndMs(utterances[i].words[j]) == r
    decreases |utterances|
  {
    if |utterances| == 0 then 0.0
    else
      var prev := EndOfTimeline(utterances[..|utterances| - 1]);
      var lastWord := WordsEnd(utterances[|utterances| - 1].words);
      if lastWord > prev then lastWord else prev
  }

  /** Every word of every utterance, in rendering order. */
  function AllWords(utterances: seq<Utterance>): seq<Word>
    decreases |utterances|
  {
    if |utterances| == 0 then []
    else AllWords(utterances[..|utterances| - 1]) + utterances[|utterances| - 1].words
  }

  function Max(a: real, b: real): real
  {
    if a >= b then a else b
  }

  /** Folding two runs of words one after the other gives the larger of their two ends. */
  lemma {:induction false} WordsEndAppend(a: seq<Word>, b: seq<Word>)
    ensures WordsEnd(a + b) == Max(WordsEnd(a), WordsEnd(b))
    decreases |b|
  {
    if |b| == 0 {
      assert a + b == a;
    } else {
      var ab := a + b;
      assert ab[..|ab| - 1] == a + b[..|b| - 1];
      assert ab[|ab| - 1] == b[|b| - 1];
      WordsEndAppend(a, b[..|b| - 1]);
    }
  }

  /**
   * The nested fold agrees with one fold over the flattened transcript:
   * the end of the timeline is the latest end of any word, or 0.
   */
  lemma {:induction false} EndOfTimelineIsEndOfAllWords(utterances: seq<Utterance>)
    ensures EndOfTimeline(utterances) == WordsEnd(AllWords(utterances))
    decreases |utterances|
  {
    if |utterances| > 0 {
      var n := |utterances| - 1;
      EndOfTimelineIsEndOfAllWords(utterances[..n]);
      WordsEndAppend(AllWords(utterances[..n]), utterances[n].words);
    }
  }

  /** No non-negative bound on every word end lies below the end of the timeline. */
  lemma EndOfTimelineIsLeastBound(utterances: seq<Utterance>, bound: real)
    requires 0.0 <= bound
    requires forall i, j :: 0 <= i < |utterances| && 0 <= j < |utterances[i].words| ==>
      EndMs(utterances[i].words[j]) <= bound
    ensures EndOfTimeline(utterances) <= bound
  {
  }

  /** A word of the transcript is only ever highlighted at or before the end of the timeline. */
  lemma ActiveWordWithinTimeline(utterances: seq<Utterance>, i: int, j: int, timeline: int)
    requires 0 <= i < |utterances| && 0 <= j < |utterances[i].words|
    requires IsActive(utterances[i].words[j], timeline)
    ensures timeline as real <= EndOfTimeline(utterances)
  {
  }

  // ----- Speakers -----

  /**
   * The id-to-name table, folded from the left starting empty; a later
   * speaker with the same id overwrites an earlier one.
   */
  function SpeakersById(speakers: seq<Speaker>): (m: map<int, string>)
    ensures m.Keys == set k | 0 <= k < |speakers| :: speakers[k].id
    decreases |speakers|
  {
    if |speakers| == 0 then map[]
    else
      var next := speakers[|speakers| - 1];
      SpeakersById(speakers[..|speakers| - 1])[next.id := next.name]
  }

  /** The name stored for an id, or nothing when no speaker has it. */
  function Lookup(byId: map<int, string>, id: int): Option<string>
  {
    if id in byId then Some(byId[id]) else None
  }

  /**
   * Looking an id up in the table gives the name of the last speaker in
   * the list with that id, and nothing exactly when no speaker has it.
   */
  lemma {:induction false} LookupFindsLastSpeaker(speakers: seq<Speaker>, id: int)
    ensures Lookup(SpeakersById(speakers), id).None? <==>
      forall k :: 0 <= k < |speakers| ==> speakers[k].id != id
    ensures Lookup(SpeakersById(speakers), id).Some? ==>
      exists k :: 0 <= k < |speakers| && speakers[k].id == id &&
        speakers[k].name == Lookup(SpeakersById(speakers), id).value &&
        forall j :: k < j < |speakers| ==> speakers[j].id != id
    decreases |speakers|
  {
    if |speakers| > 0 {
      var n := |speakers| - 1;
      var prefix := speakers[..n];
      LookupFindsLastSpeaker(prefix, id);
      if speakers[n].id == id {
        assert Lookup(SpeakersById(speakers), id) == Some(speakers[n].name);
      } else {
        assert Lookup(SpeakersById(speakers), id) == Lookup(SpeakersById(prefix), id);
        if Lookup(SpeakersById(prefix), id).Some? {
          var k :| 0 <= k < |prefix| && prefix[k].id == id &&
            prefix[k].name == Lookup(SpeakersById(prefix), id).value &&
            forall j :: k < j < |prefix| ==> prefix[j].id != id;
          assert speakers[k] == prefix[k];
        }
      }
    }
  }

  // ----- Ticks -----

  /**
   * The timeline value once a tick has settled: the old value plus the
   * tick size, or 0 when that reaches the end and the tick restarts.
   */
  function NextTimeline(timeline: int, frequency: int, end: real): (r: int)
    ensures r == timeline + frequency || r == 0
    ensures r == 0 || r as real < end
  {
    var advanced := timeline + frequency;
    if advanced as real >= end then 0 else advanced
  }

  /** The timeline range is kept by every settled tick: below the end unless back at 0. */
  lemma NextTimelineStaysInRange(timeline: int, frequency: int, end: real)
    requires 0 <= timeline && 0 < frequency && 0.0 <= end
    ensures var next := NextTimeline(timeline, frequency, end);
      0 <= next && next as real <= end && (next == 0 || next as real < end)
  {
  }

  /** The timeline after n uninterrupted ticks from a given value. */
  function Ticks(timeline: int, n: nat, frequency: int, end: real): int
  {
    if n == 0 then timeline else NextTimeline(Ticks(timeline, n - 1, frequency, end), frequency, end)
  }

  /** From 0, n ticks whose total stays below the end leave the timeline at n ticks' worth. */
  lemma {:induction false} TicksAdvanceBeforeEnd(n: nat, frequency: int, end: real)
    requires 0 < frequency && (n * frequency) as real < end
    ensures Ticks(0, n, frequency, end) == n * frequency
  {
    if n > 0 {
      assert (n - 1) * frequency == n * frequency - frequency;
      TicksAdvanceBeforeEnd(n - 1, frequency, end);
    }
  }

  /** The first tick whose total reaches the end restarts the timeline at 0. */
  lemma AutoRestartAtEnd(n: nat, frequency: int, end: real)
    requires 0 < frequency && 0 < n
    requires ((n - 1) * frequency) as real < end <= (n * frequency) as real
    ensures Ticks(0, n, frequency, end) == 0
  {
    TicksAdvanceBeforeEnd(n - 1, frequency, end);
    assert (n - 1) * frequency + frequency == n * frequency;
  }

  // ----- Controls -----

  /** Which of the Start, Pause and Restart buttons are enabled. */
  datatype Controls = Controls(start: bool, pause: bool, restart: bool)

  /** Start is disabled while in progress, Pause while not, Restart while the timeline is at 0. */
  function EnabledControls(timeline: int, inProgress: bool): (c: Controls)
    ensures c.start != c.pause && c.pause == inProgress
    ensures !c.restart ==> timeline == 0
  {
    Controls(!inProgress, inProgress, timeline != 0)
  }

  /** The states of the player as a user sees them. */
  datatype Phase = Stopped | Paused | Running

  function PhaseOf(timeline: int, inProgress: bool): Phase
  {
    if inProgress then Running else if timeline == 0 then Stopped else Paused
  }

  /**
   * The enabled buttons follow the phase: stopped offers only Start, paused
   * offers Start and Restart, running offers Pause and, once the timeline
   * has left 0, Restart. Start and Pause are never enabled together.
   */
  lemma ControlsFollowPhase(timeline: int, inProgress: bool)
    ensures var c := EnabledControls(timeline, inProgress);
      && c.start != c.pause
      && (PhaseOf(timeline, inProgress) == Stopped ==> c == Controls(true, false, false))
      && (PhaseOf(timeline, inProgress) == Paused ==> c == Controls(true, false, true))
      && (PhaseOf(timeline, inProgress) == Running ==> c == Controls(false, true, timeline != 0))
  {
  }
}
