/**
 * The transcript document the viewer is given: speakers, and utterances
 * made of timed words. Times in the document are seconds; the viewer
 * works on a millisecond timeline, so a word's window is its start time
 * and its end time, each multiplied by 1000.
 */
module Transcript {

  /** One word of an utterance, with the four fields of a semantic word. */
  datatype Word = Word(name: string, startTime: real, duration: real, isSymbol: bool)

  /** A speaker, looked up by id to name the author of an utterance. */
  datatype Speaker = Speaker(id: int, name: string)

  /** One speaker's run of words, in rendering order. */
  datatype Utterance = Utterance(speakerId: int, words: seq<Word>)

  /** Where the word starts on the millisecond timeline. */
  function StartMs(w: Word): real
  {
    w.startTime * 1000.0
  }

  /** Where the word ends on the millisecond timeline: start plus duration, both scaled. */
  function EndMs(w: Word): real
  {
    StartMs(w) + w.duration * 1000.0
  }
}
