/** The module-level state of main.js and the IPC handlers that change it: the looping audio
    sequencer (start, acknowledge, loop timer, stop, navigation hand-off) and the call-history
    handlers. Broadcasts to the windows are recorded, one entry per broadcast, in `log`. */
module MainProcess {
  import opened Common
  import opened History
  import opened Config
  import opened Audio

  /** A message sent to the renderer windows. */
  datatype Command =
    | Play(code: string, soundFile: string, currentIndex: nat, totalSounds: nat)  // play-persistent-audio
    | Stop                                                                       // stop-persistent-audio
    | SoundStopped(code: string)                                                 // persistent-sound-stopped
    | HistoryUpdated(                                                            // call-history-updated
        callHistory: seq<CallRecord>,
        activeAlerts: seq<string>,
        persistentSounds: map<string, SoundState>,
        persistentBlinking: map<string, string>)

  /** The `status` strings of restore-audio-after-navigation. */
  datatype RestoreStatus = ActivelyPlaying | RestoredFromSaved | NoAudioToRestore

  /** The `status` strings of audio-element-ready. */
  datatype ReadyStatus = SentCurrentAudio | AutoRestored | ReadyNoAudio

  /** The payload of update-call-history; each part may be missing. Active alerts and blink
      states are kept as their JSON text. */
  datatype HistoryUpdate = HistoryUpdate(
    callHistory: Option<seq<CallRecord>>,
    activeAlerts: Option<seq<string>>,
    persistentSounds: Option<seq<(string, SoundState)>>,
    persistentBlinking: Option<seq<(string, string)>>)

  /** Every play command in the log names an index inside its sequence. */
  predicate PlaysInBounds(log: seq<Command>)
  {
    forall k :: 0 <= k < |log| && log[k].Play? ==> log[k].currentIndex < log[k].totalSounds
  }

  function PlayCommand(s: AudioSequence): Command
    requires s.currentIndex < |s.sounds|
  {
    Play(s.code, s.sounds[s.currentIndex], s.currentIndex, |s.sounds|)
  }

  /** The live sequence as sendAudioToMainWindow leaves it. */
  function AfterEmit(s: AudioSequence, files: set<string>): (r: AudioSequence)
    requires InBounds(s)
    ensures InBounds(r) && r.currentIndex >= s.currentIndex
    ensures r.code == s.code && r.sounds == s.sounds && r.loopCount == s.loopCount
    ensures forall k :: s.currentIndex <= k < r.currentIndex ==> s.sounds[k] !in files
    ensures r.currentIndex < |s.sounds| ==> s.sounds[r.currentIndex] in files
  {
    s.(currentIndex := NextPlayable(s.sounds, s.currentIndex, files))
  }

  /** What sendAudioToMainWindow broadcasts: one play command, or nothing. */
  function EmitCommands(s: AudioSequence, files: set<string>): (r: seq<Command>)
    requires InBounds(s)
    ensures |r| <= 1
  {
    var t := AfterEmit(s, files);
    if t.currentIndex < |t.sounds| then [PlayCommand(t)] else []
  }

  /** What the restore handlers re-send for a sequence that is still playing: the current
      sound, without looking at whether its file exists. */
  function ResendCommands(s: AudioSequence): (r: seq<Command>)
    ensures |r| <= 1 && PlaysInBounds(r)
    ensures r != [] <==> s.currentIndex < |s.sounds|
    ensures forall c :: c in r ==> c == Play(s.code, s.sounds[s.currentIndex], s.currentIndex, |s.sounds|)
  {
    if s.currentIndex < |s.sounds| then [PlayCommand(s)] else []
  }

  /** Emission plays the first present file at or after the current index, with that index;
      it emits nothing exactly when every remaining file is missing, and then the sequence
      is left pointing past its last sound. */
  lemma EmitPlaysFirstPresent(s: AudioSequence, files: set<string>)
    requires InBounds(s)
    ensures InBounds(AfterEmit(s, files))
    ensures AfterEmit(s, files).code == s.code && AfterEmit(s, files).sounds == s.sounds
    ensures AfterEmit(s, files).loopCount == s.loopCount
    ensures PlaysInBounds(EmitCommands(s, files))
    ensures EmitCommands(s, files) == [] <==> forall k :: s.currentIndex <= k < |s.sounds| ==> s.sounds[k] !in files
    ensures EmitCommands(s, files) == [] ==> AfterEmit(s, files).currentIndex == |s.sounds|
    ensures forall k :: s.currentIndex <= k < AfterEmit(s, files).currentIndex ==> s.sounds[k] !in files
    ensures forall c :: c in EmitCommands(s, files) ==>
              && c.Play? && c.code == s.code && c.totalSounds == |s.sounds|
              && s.currentIndex <= c.currentIndex < |s.sounds|
              && c.soundFile == s.sounds[c.currentIndex] && c.soundFile in files
              && c.currentIndex == AfterEmit(s, files).currentIndex
  {
    var j := NextPlayable(s.sounds, s.currentIndex, files);
    if j == |s.sounds| {
      assert EmitCommands(s, files) == [];
    } else {
      assert s.sounds[j] in files;
    }
  }

  /** The `forEach` of saveCompletedCallsToPersistentStorage: each call that matches no entry
      of the history so far, earlier pushes included, is stamped and pushed. */
  method PushUnmatched(stored: seq<CallRecord>, completed: seq<CallRecord>, now: int) returns (history: seq<CallRecord>)
    ensures history == AppendUnmatched(stored, completed, now)
  {
    history := stored;
    var i := 0;
    while i < |completed|
      invariant 0 <= i <= |completed|
      invariant AppendUnmatched(history, completed[i..], now) == AppendUnmatched(stored, completed, now)
    {
      assert completed[i..][1..] == completed[i + 1..];
      if !Known(history, completed[i]) {
        history := history + [Persisted(completed[i], now)];
      }
      i := i + 1;
    }
  }

  class Process {
    var live: Option<AudioSequence>           // currentAudioSequence
    var playing: bool                         // isAudioPlaying
    var loopTimer: Option<string>             // loopDelayTimeout: the code its callback captured
    var saved: Option<SavedAudio>             // currentlyPlayingAudio
    var persistentSounds: map<string, SoundState>
    var audioElementExists: bool
    var navigatingFromDisplay: bool           // isNavigatingFromDisplay
    var log: seq<Command>
    var sharedCallHistory: seq<CallRecord>
    var sharedActiveAlerts: seq<string>
    var persistentBlinking: map<string, string>
    var configFile: ConfigFile                // config.json

    /** A sequence is live exactly while audio is playing; indices stay within the sound list;
        a pending loop timer belongs to the live sequence; every play command was in bounds. */
    ghost predicate Valid()
      reads this`playing, this`live, this`saved, this`loopTimer, this`log
    {
      && (playing <==> live.Some?)
      && (live.Some? ==> InBounds(live.value))
      && (saved.Some? ==> InBounds(saved.value.sequence))
      && (loopTimer.Some? ==> live.Some? && live.value.code == loopTimer.value)
      && PlaysInBounds(log)
    }

    /** The state at process start, with config.json as found on disk. */
    constructor (file: ConfigFile)
      ensures Valid()
      ensures live.None? && !playing && loopTimer.None? && saved.None?
      ensures persistentSounds == map[] && !audioElementExists && !navigatingFromDisplay && log == []
      ensures sharedCallHistory == [] && sharedActiveAlerts == [] && persistentBlinking == map[]
      ensures configFile == file
    {
      live, playing, loopTimer, saved := None, false, None, None;
      persistentSounds := map[];
      audioElementExists, navigatingFromDisplay := false, false;
      log := [];
      sharedCallHistory, sharedActiveAlerts, persistentBlinking := [], [], map[];
      configFile := file;
    }

    /** sendAudioToMainWindow: skip missing files, then broadcast the current sound. */
    method SendAudioToMainWindow(files: set<string>)
      requires Valid()
      modifies this`live, this`log
      ensures Valid()
      ensures old(live).None? ==> live == old(live) && log == old(log)
      ensures old(live).Some? ==>
                && live == Some(AfterEmit(old(live).value, files))
                && log == old(log) + EmitCommands(old(live).value, files)
    {
      if live.None? || !playing {
        return;
      }
      var s := live.value;
      if s.currentIndex >= |s.sounds| {
        return;
      }
      var i := s.currentIndex;
      while i < |s.sounds| && s.sounds[i] !in files
        invariant s.currentIndex <= i <= |s.sounds|
        invariant NextPlayable(s.sounds, i, files) == NextPlayable(s.sounds, s.currentIndex, files)
        decreases |s.sounds| - i
      {
        i := i + 1;
      }
      live := Some(s.(currentIndex := i));
      if i < |s.sounds| {
        log := log + [Play(s.code, s.sounds[i], i, |s.sounds|)];
      }
    }

    /** stopCurrentAudio: no live sequence, not playing, no pending loop timer, stop broadcast.
        The saved navigation snapshot is not touched. */
    method StopCurrentAudio()
      requires Valid()
      modifies this`playing, this`live, this`loopTimer, this`log
      ensures Valid()
      ensures !playing && live.None? && loopTimer.None?
      ensures log == old(log) + [Stop]
    {
      playing := false;
      live := None;
      loopTimer := None;
      log := log + [Stop];
    }

    /** play-persistent-sounds: stop whatever is playing (even the same code), record the
        code's persistent entry, make `{code, sounds, currentIndex: 0}` live and emit. */
    method PlayPersistentSounds(code: string, sounds: seq<string>, now: int, files: set<string>)
      requires Valid()
      modifies this`playing, this`live, this`loopTimer, this`log, this`persistentSounds
      ensures Valid()
      ensures persistentSounds == old(persistentSounds)[code := SoundState(sounds, true, now, 0, true)]
      ensures playing && loopTimer.None?
      ensures live == Some(AfterEmit(AudioSequence(code, sounds, 0, 0), files))
      ensures log == old(log) + (if old(playing) then [Stop] else []) + EmitCommands(AudioSequence(code, sounds, 0, 0), files)
    {
      if playing {
        StopCurrentAudio();
      }
      persistentSounds := persistentSounds[code := SoundState(sounds, true, now, 0, true)];
      live := Some(AudioSequence(code, sounds, 0, 0));
      playing := true;
      SendAudioToMainWindow(files);
    }

    /** persistent-audio-ended: only an acknowledgement for the live code while playing does
        anything. The index becomes `ackIndex + 1`; past the end it wraps to 0, counts a loop
        and arms the loop timer, otherwise the next sound is emitted at once. */
    method PersistentAudioEnded(code: string, ackIndex: nat, files: set<string>)
      requires Valid()
      modifies this`live, this`loopTimer, this`log
      ensures Valid()
      ensures !(old(playing) && old(live).Some? && old(live).value.code == code) ==>
                live == old(live) && loopTimer == old(loopTimer) && log == old(log)
      ensures old(playing) && old(live).Some? && old(live).value.code == code ==>
                var a := Acked(old(live).value, ackIndex);
                && (ackIndex + 1 >= |a.sounds| ==>
                      live == Some(a) && loopTimer == Some(code) && log == old(log))
                && (ackIndex + 1 < |a.sounds| ==>
                      && live == Some(AfterEmit(a, files))
                      && loopTimer == old(loopTimer)
                      && log == old(log) + EmitCommands(a, files))
    {
      if live.Some? && live.value.code == code && playing {
        var s := live.value;
        var next := ackIndex + 1;
        if next >= |s.sounds| {
          live := Some(s.(currentIndex := 0, loopCount := NextLoopCount(s.loopCount)));
          loopTimer := Some(code);
        } else {
          live := Some(s.(currentIndex := next));
          SendAudioToMainWindow(files);
        }
      }
    }

    /** The loop-delay callback firing. A cleared timer never fires, and the callback replays
        only while the same code is still live and playing; either way no timer is left. */
    method LoopDelayElapsed(files: set<string>)
      requires Valid()
      modifies this`live, this`loopTimer, this`log
      ensures Valid()
      ensures loopTimer.None?
      ensures old(loopTimer).None? || !old(playing) ==> live == old(live) && log == old(log)
      ensures old(loopTimer).Some? ==>
                && old(live).Some?
                && live == Some(AfterEmit(old(live).value, files))
                && log == old(log) + EmitCommands(old(live).value, files)
    {
      if loopTimer.Some? {
        var code := loopTimer.value;
        if playing && live.Some? && live.value.code == code {
          SendAudioToMainWindow(files);
        }
        loopTimer := None;
      }
    }

    /** stop-persistent-sounds: forget the code's persistent entry and stop the live sequence,
        whatever code it plays. */
    method StopPersistentSounds(code: string)
      requires Valid()
      modifies this`persistentSounds, this`playing, this`live, this`loopTimer, this`log
      ensures Valid()
      ensures persistentSounds == old(persistentSounds) - {code}
      ensures !playing && live.None? && loopTimer.None?
      ensures log == old(log) + [Stop, SoundStopped(code)]
    {
      if code in persistentSounds {
        persistentSounds := persistentSounds - {code};
      }
      StopCurrentAudio();
      log := log + [SoundStopped(code)];
    }

    /** The snapshot both navigation handlers take: a copy of the live sequence, only while
        audio is playing. */
    method SaveAudioBeforeNavigation(now: int)
      requires Valid()
      modifies this`saved
      ensures Valid()
      ensures saved == if playing && live.Some? then Some(SavedAudio(live.value, now)) else old(saved)
    {
      if playing && live.Some? {
        saved := Some(SavedAudio(live.value, now));
      }
    }

    /** open-display (the window load itself is not modelled). */
    method OpenDisplay(now: int)
      requires Valid()
      modifies this`navigatingFromDisplay, this`saved
      ensures Valid()
      ensures !navigatingFromDisplay
      ensures saved == if playing && live.Some? then Some(SavedAudio(live.value, now)) else old(saved)
    {
      navigatingFromDisplay := false;
      SaveAudioBeforeNavigation(now);
    }

    /** back-to-main (the window load itself is not modelled). */
    method BackToMain(now: int)
      requires Valid()
      modifies this`navigatingFromDisplay, this`saved
      ensures Valid()
      ensures navigatingFromDisplay
      ensures saved == if playing && live.Some? then Some(SavedAudio(live.value, now)) else old(saved)
    {
      navigatingFromDisplay := true;
      SaveAudioBeforeNavigation(now);
    }

    /** restore-audio-after-navigation: while playing, re-send the current sound and change
        nothing; otherwise install the saved snapshot, play on from its index and drop it. The
        persistent sound entries are not consulted. */
    method RestoreAudioAfterNavigation(files: set<string>) returns (status: RestoreStatus)
      requires Valid()
      modifies this`live, this`playing, this`saved, this`log
      ensures Valid()
      ensures old(playing) ==>
                && status == ActivelyPlaying && playing && live == old(live) && saved == old(saved)
                && log == old(log) + ResendCommands(old(live).value)
      ensures !old(playing) && old(saved).Some? ==>
                && status == RestoredFromSaved && playing && saved.None?
                && live == Some(AfterEmit(old(saved).value.sequence, files))
                && log == old(log) + EmitCommands(old(saved).value.sequence, files)
      ensures !old(playing) && old(saved).None? ==>
                && status == NoAudioToRestore && !playing
                && live == old(live) && saved == old(saved) && log == old(log)
    {
      if playing && live.Some? {
        var s := live.value;
        if s.currentIndex < |s.sounds| {
          log := log + [Play(s.code, s.sounds[s.currentIndex], s.currentIndex, |s.sounds|)];
        }
        return ActivelyPlaying;
      }
      if saved.Some? && !playing {
        live := Some(saved.value.sequence);
        playing := true;
        SendAudioToMainWindow(files);
        saved := None;
        return RestoredFromSaved;
      }
      return NoAudioToRestore;
    }

    /** audio-element-ready: mark the element present, then the same decision as the restore
        handler (the 200 ms wait is the point at which this event is taken). */
    method AudioElementReady(files: set<string>) returns (status: ReadyStatus)
      requires Valid()
      modifies this`audioElementExists, this`live, this`playing, this`saved, this`log
      ensures Valid()
      ensures audioElementExists
      ensures old(playing) ==>
                && status == SentCurrentAudio && playing && live == old(live) && saved == old(saved)
                && log == old(log) + ResendCommands(old(live).value)
      ensures !old(playing) && old(saved).Some? ==>
                && status == AutoRestored && playing && saved.None?
                && live == Some(AfterEmit(old(saved).value.sequence, files))
                && log == old(log) + EmitCommands(old(saved).value.sequence, files)
      ensures !old(playing) && old(saved).None? ==>
                && status == ReadyNoAudio && !playing
                && live == old(live) && saved == old(saved) && log == old(log)
    {
      audioElementExists := true;
      var restored := RestoreAudioAfterNavigation(files);
      status := match restored
        case ActivelyPlaying => SentCurrentAudio
        case RestoredFromSaved => AutoRestored
        case NoAudioToRestore => ReadyNoAudio;
    }

    /** saveCompletedCallsToPersistentStorage: load the config, push every completed shared
        call that matches no entry, sort newest first, keep the newest `MaxStored`, save. */
    method SaveCompletedCallsToPersistentStorage(now: int)
      modifies this`configFile
      ensures configFile == WithCompletedCalls(old(configFile), sharedCallHistory, now)
    {
      var loaded := LoadConfig(configFile);
      configFile := loaded.file;
      var stored := loaded.doc[HistoryKey];
      if !stored.Calls? {
        return;
      }
      var pushed := PushUnmatched(stored.records, CompletedCalls(sharedCallHistory), now);
      var kept := Take(SortNewestFirst(pushed), MaxStored);
      assert kept == MergeStored(stored.records, sharedCallHistory, now);
      var result := SaveConfig(configFile, loaded.doc[HistoryKey := Calls(kept)]);
      configFile := result.file;
    }

    /** update-call-history: replace each part that is present, save the completed calls when
        a call history came, and broadcast the new snapshot. */
    method UpdateCallHistory(update: HistoryUpdate, now: int) returns (ok: bool)
      requires Valid()
      modifies this`sharedCallHistory, this`configFile, this`sharedActiveAlerts
      modifies this`persistentSounds, this`persistentBlinking, this`log
      ensures Valid() && ok
      ensures update.callHistory.Some? ==>
                && sharedCallHistory == update.callHistory.value
                && configFile == WithCompletedCalls(old(configFile), update.callHistory.value, now)
      ensures update.callHistory.None? ==>
                sharedCallHistory == old(sharedCallHistory) && configFile == old(configFile)
      ensures sharedActiveAlerts ==
                if update.activeAlerts.Some? then update.activeAlerts.value else old(sharedActiveAlerts)
      ensures persistentSounds ==
                if update.persistentSounds.Some? then MapFromEntries(update.persistentSounds.value)
                else old(persistentSounds)
      ensures persistentBlinking ==
                if update.persistentBlinking.Some? then MapFromEntries(update.persistentBlinking.value)
                else old(persistentBlinking)
      ensures log == old(log) + [HistoryUpdated(sharedCallHistory, sharedActiveAlerts, persistentSounds, persistentBlinking)]
    {
      ReplaceCallHistory(update.callHistory, now);
      ReplaceDisplayState(update.activeAlerts, update.persistentSounds, update.persistentBlinking);
      assert log == old(log);
      BroadcastCallHistoryUpdate();
      ok := true;
    }

    /** The call-history part of update-call-history: when a history came, take it as the
        shared history and save its completed calls. */
    method ReplaceCallHistory(calls: Option<seq<CallRecord>>, now: int)
      modifies this`sharedCallHistory, this`configFile
      ensures calls.Some? ==>
                sharedCallHistory == calls.value && configFile == WithCompletedCalls(old(configFile), calls.value, now)
      ensures calls.None? ==> sharedCallHistory == old(sharedCallHistory) && configFile == old(configFile)
    {
      if calls.Some? {
        sharedCallHistory := calls.value;
        SaveCompletedCallsToPersistentStorage(now);
      }
    }

    /** The other parts of update-call-history: each one present replaces the stored one. */
    method ReplaceDisplayState(
      activeAlerts: Option<seq<string>>,
      sounds: Option<seq<(string, SoundState)>>,
      blinking: Option<seq<(string, string)>>)
      requires Valid()
      modifies this`sharedActiveAlerts, this`persistentSounds, this`persistentBlinking
      ensures Valid()
      ensures sharedActiveAlerts == if activeAlerts.Some? then activeAlerts.value else old(sharedActiveAlerts)
      ensures persistentSounds == if sounds.Some? then MapFromEntries(sounds.value) else old(persistentSounds)
      ensures persistentBlinking == if blinking.Some? then MapFromEntries(blinking.value) else old(persistentBlinking)
    {
      if activeAlerts.Some? {
        sharedActiveAlerts := activeAlerts.value;
      }
      if sounds.Some? {
        persistentSounds := MapFromEntries(sounds.value);
      }
      if blinking.Some? {
        persistentBlinking := MapFromEntries(blinking.value);
      }
    }

    /** broadcastCallHistoryUpdate: send the whole current snapshot to the windows. */
    method BroadcastCallHistoryUpdate()
      requires Valid()
      modifies this`log
      ensures Valid()
      ensures log == old(log) + [HistoryUpdated(sharedCallHistory, sharedActiveAlerts, persistentSounds, persistentBlinking)]
    {
      log := log + [HistoryUpdated(sharedCallHistory, sharedActiveAlerts, persistentSounds, persistentBlinking)];
    }

    /** get-persistent-call-history: the stored history filtered by the optional date range.
        A stored history that is not an array yields `[]`. */
    method GetPersistentCallHistory(startDate: Option<int>, endDate: Option<int>) returns (calls: seq<CallRecord>)
      modifies this`configFile
      ensures configFile == LoadConfig(old(configFile)).file
      ensures var stored := LoadConfig(old(configFile)).doc[HistoryKey];
              calls == if stored.Calls? then Query(stored.records, startDate, endDate) else []
    {
      var loaded := LoadConfig(configFile);
      configFile := loaded.file;
      var stored := loaded.doc[HistoryKey];
      if !stored.Calls? {
        return [];
      }
      calls := Query(stored.records, startDate, endDate);
    }

    /** load-persistent-call-history-at-startup: the first `StartupRecent` stored records become
        the shared history. A stored history that is not an array yields `[]`. */
    method LoadPersistentCallHistoryAtStartup() returns (recent: seq<CallRecord>)
      modifies this`configFile, this`sharedCallHistory
      ensures configFile == LoadConfig(old(configFile)).file
      ensures var stored := LoadConfig(old(configFile)).doc[HistoryKey];
              if stored.Calls? then recent == Take(stored.records, StartupRecent) && sharedCallHistory == recent
              else recent == [] && sharedCallHistory == old(sharedCallHistory)
    {
      var loaded := LoadConfig(configFile);
      configFile := loaded.file;
      var stored := loaded.doc[HistoryKey];
      if !stored.Calls? {
        return [];
      }
      recent := Take(stored.records, StartupRecent);
      sharedCallHistory := recent;
    }
  }
}
