/** The values the looping audio sequencer of main.js works on, and the pure rules behind its
    handlers: which sound is emitted next, and how an acknowledgement moves the sequence. */
module Audio {

  /** `currentAudioSequence`. `loopCount` 0 stands for the field not being set yet: the start
      handler does not set it, and the first completed loop sets it to 1. */
  datatype AudioSequence = AudioSequence(code: string, sounds: seq<string>, currentIndex: nat, loopCount: nat)

  /** A `persistentSounds` entry. (The 5000 ms delay between two loops is not a value of the
      model: a pending loop timer is a field of the process, and its expiry an event.) */
  datatype SoundState = SoundState(sounds: seq<string>, isPlaying: bool, startTime: int, currentIndex: nat, isLooping: bool)

  /** `currentlyPlayingAudio`: a copy of the live sequence taken before navigation, with the
      time it was taken (its `wasPlaying` flag is always true and is not kept). */
  datatype SavedAudio = SavedAudio(sequence: AudioSequence, timestamp: int)

  predicate InBounds(s: AudioSequence)
  {
    s.currentIndex <= |s.sounds|
  }

  /** The index sendAudioToMainWindow ends on when it starts at `from`: missing files are
      skipped one by one; the result is a present file, or the end of the list. */
  function NextPlayable(sounds: seq<string>, from: nat, files: set<string>): (j: nat)
    requires from <= |sounds|
    ensures from <= j <= |sounds|
    ensures j < |sounds| ==> sounds[j] in files
    ensures forall k :: from <= k < j ==> sounds[k] !in files
    decreases |sounds| - from
  {
    if from == |sounds| || sounds[from] in files then from
    else NextPlayable(sounds, from + 1, files)
  }

  /** When every sound file is present, emission plays the sound the sequence points at. */
  lemma NextPlayableAllPresent(sounds: seq<string>, from: nat, files: set<string>)
    requires from <= |sounds|
    requires forall k :: 0 <= k < |sounds| ==> sounds[k] in files
    ensures NextPlayable(sounds, from, files) == from
  {
  }

  /** The loop counter after a completed loop: unset becomes 1, otherwise it is incremented. */
  function NextLoopCount(n: nat): (r: nat)
    ensures r > n && r >= 1
    ensures n > 0 ==> r == n + 1
  {
    if n == 0 then 1 else n + 1
  }

  /** The state change of persistent-audio-ended for the live code: the index becomes the
      acknowledged index plus one, which wraps to 0 and counts a loop when it passes the end.
      The acknowledged index is not compared with the current one. */
  function Acked(s: AudioSequence, ackIndex: nat): (r: AudioSequence)
    ensures r.code == s.code && r.sounds == s.sounds
    ensures r.currentIndex < |s.sounds| || (|s.sounds| == 0 && r.currentIndex == 0)
    ensures r.currentIndex == 0 <==> r.loopCount != s.loopCount
    ensures r.loopCount == s.loopCount || r.loopCount == NextLoopCount(s.loopCount)
    ensures ackIndex + 1 < |s.sounds| ==> r == s.(currentIndex := ackIndex + 1)
    ensures ackIndex + 1 >= |s.sounds| ==> r.currentIndex == 0 && r.loopCount == NextLoopCount(s.loopCount)
  {
    if ackIndex + 1 >= |s.sounds| then s.(currentIndex := 0, loopCount := NextLoopCount(s.loopCount))
    else s.(currentIndex := ackIndex + 1)
  }

  /** Acknowledging the sound that was just played at `s.currentIndex`, `n` times in a row. */
  function AckRun(s: AudioSequence, n: nat): AudioSequence
  {
    if n == 0 then s
    else
      var t := AckRun(s, n - 1);
      Acked(t, t.currentIndex)
  }

  /** Part way through a loop, `n` in-order acknowledgements have moved the index by `n` and
      have not counted a loop. */
  lemma {:induction false} AckRunWithinLoop(s: AudioSequence, n: nat)
    requires s.currentIndex == 0 && n < |s.sounds|
    ensures AckRun(s, n) == s.(currentIndex := n)
  {
    if n > 0 {
      AckRunWithinLoop(s, n - 1);
    }
  }

  /** After one in-order acknowledgement per sound, the index is back at 0 and the loop count
      has gone up by exactly one (from unset to 1 the first time). */
  lemma FullLoop(s: AudioSequence)
    requires s.currentIndex == 0 && |s.sounds| > 0
    ensures AckRun(s, |s.sounds|) == s.(loopCount := NextLoopCount(s.loopCount))
  {
    var n := |s.sounds|;
    AckRunWithinLoop(s, n - 1);
    var t := AckRun(s, n - 1);
    assert t == s.(currentIndex := n - 1);
    assert AckRun(s, n) == Acked(t, n - 1);
    assert Acked(t, n - 1) == AudioSequence(s.code, s.sounds, 0, NextLoopCount(s.loopCount));
  }

  /** A duplicate acknowledgement of an index that was already acknowledged moves nothing
      on: the index is set to the same value again (and main.js emits that sound again). */
  lemma DuplicateAckRepeats(s: AudioSequence, ackIndex: nat)
    requires ackIndex + 1 < |s.sounds|
    ensures Acked(Acked(s, ackIndex), ackIndex) == Acked(s, ackIndex)
  {
  }

  /** A duplicate acknowledgement of the last sound is not harmless: it wraps again and counts
      a second loop (and main.js arms the loop timer again). */
  lemma DuplicateLastAckCountsLoop(s: AudioSequence, ackIndex: nat)
    requires ackIndex + 1 >= |s.sounds|
    ensures Acked(Acked(s, ackIndex), ackIndex).currentIndex == 0
    ensures Acked(Acked(s, ackIndex), ackIndex).loopCount == NextLoopCount(Acked(s, ackIndex).loopCount)
    ensures Acked(Acked(s, ackIndex), ackIndex).loopCount > Acked(s, ackIndex).loopCount
  {
  }

  /** A stale acknowledgement is applied as it comes: acknowledging an earlier index moves
      the sequence back. */
  lemma StaleAckRewinds(s: AudioSequence, ackIndex: nat)
    requires ackIndex + 1 < s.currentIndex < |s.sounds|
    ensures Acked(s, ackIndex).currentIndex == ackIndex + 1 < s.currentIndex
    ensures Acked(s, ackIndex).loopCount == s.loopCount
  {
  }
}
