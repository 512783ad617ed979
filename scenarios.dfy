/** Verified scenarios of the sequencer handlers on a fresh process, showing the behaviour of
    main.js as written: counting loops, replacing on restart, undoing a stop across
    navigation, a stale acknowledgement during the loop delay, ignoring a cleared timer and
    stalling on a missing last file. */
module Scenarios {
  import opened Common
  import opened Config
  import opened Audio
  import opened MainProcess

  /** Two sounds, both present, acknowledged in order, then the loop delay runs out: the
      first sound plays again and one loop is counted (the counter starts unset). */
  method LoopWithTwoSounds() returns (log: seq<Command>, loops: nat)
    ensures log == [Play("1023", "a.wav", 0, 2), Play("1023", "b.wav", 1, 2), Play("1023", "a.wav", 0, 2)]
    ensures loops == 1
  {
    var files := {"a.wav", "b.wav"};
    var p := new Process(Absent);
    p.PlayPersistentSounds("1023", ["a.wav", "b.wav"], 0, files);
    p.PersistentAudioEnded("1023", 0, files);
    p.PersistentAudioEnded("1023", 1, files);
    assert p.loopTimer == Some("1023");
    p.LoopDelayElapsed(files);
    log := p.log;
    loops := p.live.value.loopCount;
  }

  /** Starting the code that is already playing stops it and starts it again from the first
      sound. */
  method RestartSameCode() returns (log: seq<Command>, index: nat)
    ensures log == [Play("1023", "a.wav", 0, 2), Play("1023", "b.wav", 1, 2), Stop, Play("1023", "a.wav", 0, 2)]
    ensures index == 0
  {
    var files := {"a.wav", "b.wav"};
    var p := new Process(Absent);
    p.PlayPersistentSounds("1023", ["a.wav", "b.wav"], 0, files);
    p.PersistentAudioEnded("1023", 0, files);
    p.PlayPersistentSounds("1023", ["a.wav", "b.wav"], 5, files);
    log := p.log;
    index := p.live.value.currentIndex;
  }

  /** A stop while the display window is open does not clear the snapshot taken when it
      opened, so coming back restores the stopped code and plays it again. */
  method StopDuringNavigationIsUndone() returns (status: RestoreStatus, playing: bool, replayed: seq<Command>)
    ensures status == RestoredFromSaved && playing
    ensures replayed == [Play("1023", "a.wav", 0, 1)]
  {
    var files := {"a.wav"};
    var p := new Process(Absent);
    p.PlayPersistentSounds("1023", ["a.wav"], 0, files);
    p.OpenDisplay(10);
    p.StopPersistentSounds("1023");
    var before := |p.log|;
    status := p.RestoreAudioAfterNavigation(files);
    playing := p.playing;
    replayed := p.log[before..];
  }

  /** A stale acknowledgement of the first sound arriving during the loop delay plays the
      second sound at once, and the timer's expiry then plays it again from that index,
      not from the first sound. */
  method AckDuringDelay() returns (log: seq<Command>)
    ensures log == [Play("1023", "a.wav", 0, 2), Play("1023", "b.wav", 1, 2),
                    Play("1023", "b.wav", 1, 2), Play("1023", "b.wav", 1, 2)]
  {
    var files := {"a.wav", "b.wav"};
    var p := new Process(Absent);
    p.PlayPersistentSounds("1023", ["a.wav", "b.wav"], 0, files);
    p.PersistentAudioEnded("1023", 0, files);
    p.PersistentAudioEnded("1023", 1, files);
    p.PersistentAudioEnded("1023", 0, files);
    assert p.loopTimer == Some("1023");
    p.LoopDelayElapsed(files);
    log := p.log;
  }

  /** A stop arriving during the loop delay clears the timer: its expiry plays nothing. */
  method LateTimerAfterStop() returns (log: seq<Command>, playing: bool)
    ensures log == [Play("1023", "a.wav", 0, 1), Stop, SoundStopped("1023")]
    ensures !playing
  {
    var files := {"a.wav"};
    var p := new Process(Absent);
    p.PlayPersistentSounds("1023", ["a.wav"], 0, files);
    p.PersistentAudioEnded("1023", 0, files);
    p.StopPersistentSounds("1023");
    p.LoopDelayElapsed(files);
    log := p.log;
    playing := p.playing;
  }

  /** When the last sound's file is missing, acknowledging the one before it skips past the
      end: nothing is played, no loop timer is armed, and the sequence stays playing without
      ever sounding again. */
  method MissingLastFileStalls() returns (log: seq<Command>, index: nat, timerArmed: bool, playing: bool)
    ensures log == [Play("1023", "a.wav", 0, 2)]
    ensures index == 2 && !timerArmed && playing
  {
    var files := {"a.wav"};
    var p := new Process(Absent);
    p.PlayPersistentSounds("1023", ["a.wav", "b.wav"], 0, files);
    p.PersistentAudioEnded("1023", 0, files);
    p.LoopDelayElapsed(files);
    log := p.log;
    index := p.live.value.currentIndex;
    timerArmed := p.loopTimer.Some?;
    playing := p.playing;
  }
}
