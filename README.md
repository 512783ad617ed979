# Nurse-call main process: audio sequencer and call-history store

This project is a Dafny model of the core of `main.js`, the Electron main process of a
nurse-call desk application. It covers two parts.

**The looping audio sequencer.** `play-persistent-sounds` starts a sequence of sound files
for a call code. `sendAudioToMainWindow` skips missing files and broadcasts a
`play-persistent-audio` command for the current sound. The renderer acknowledges each sound
with `persistent-audio-ended`, and the sequence moves on. After the last sound it wraps to 0,
counts a loop and waits 5 seconds before playing again. `stop-persistent-sounds` stops
the live sequence, whatever its code. `open-display` and `back-to-main` take a snapshot of the live sequence.
`restore-audio-after-navigation` and `audio-element-ready` resume from that snapshot.

**The call-history store.** `update-call-history` replaces the shared state, saves the
completed calls into `callHistoryStorage` in `config.json`, and broadcasts the new snapshot.
The save:

- skips calls that match a stored record, by id or by same code within 1000 ms;
- sorts newest first;
- keeps the 10000 newest records.

`get-persistent-call-history` filters the store by an optional date range.
`load-persistent-call-history-at-startup` loads the first 100 stored records, which are the
newest when the store was last written by a history save (StartupAfterSaveReadsNewest). `loadConfig` and
`saveConfig` are modelled as functions of the file state: absent, unreadable, or a document.

The modules:

- `Common`: `Option`, and `new Map(entries)`.
- `History`: records, matcher, merge, sort, cap, date filter.
- `Config`: `config.json`, `loadConfig`, `saveConfig`, the effect of a history save.
- `Audio`: sequence values, the skipping rule, acknowledgements.
- `MainProcess`: the module-level state of `main.js` as the class `Process`, with one method per handler.
- `Scenarios`: verified scenarios that drive those handlers.

Broadcasts to the windows go into the field `log`, one entry per broadcast.

The model follows the code as written, including these behaviours that are easy to miss:

- The start handler does not set `loopCount`, so the first completed loop sets it to 1, not 2.
- An acknowledgement checks only the code and the playing flag. The index becomes
  `ackIndex + 1` whatever the current index is. So a duplicate acknowledgement of any sound
  but the last replays the next sound, a duplicate acknowledgement of the last sound counts
  a second loop and re-arms the timer, and a stale one rewinds
  (`Scenarios.AckDuringDelay`).
- Starting the code that is already playing stops it and starts it again from index 0.
- `stop-persistent-sounds` stops the live sequence whatever code it is given.
- Stopping does not clear the navigation snapshot, and restoring does not consult
  `persistentSounds`. So a stop made while the display window is open is undone on return
  (`Scenarios.StopDuringNavigationIsUndone`).
- When the remaining sound files are all missing, emission runs past the end. Nothing is
  played and no loop timer is armed, so the sequence stays "playing" in silence
  (`Scenarios.MissingLastFileStalls`).
- Two call records that both lack an id match each other (`undefined === undefined`).
- Saving is idempotent only while the merged history fits under the 10000-record cap. Once
  the store is full, a completed call whose match was evicted by the cap is pushed again
  on the next save, so a second save can change the store. This is why
  `History.SaveTwiceIsSaveOnce`, `History.SaveCoversCompleted` and
  `Config.SaveCompletedTwice` require the merge to fit under the cap.

## Model

| member | source | states |
|---|---|---|
| Common.MapFromEntries | main.js:1108-1114 | `new Map(entries)`: entries are set in order. Its properties are MapFromEntriesKeys and MapFromEntriesLastWins |
| Common.MapFromEntriesKeys | main.js:1108-1114 | the map built from an entry list has exactly the keys of its entries |
| Common.MapFromEntriesLastWins | main.js:1108-1114 | a key that occurs several times maps to the value of its last entry |
| History.SameCall | main.js:1139-1143 | the `find` matcher: same id, or same code with both timestamps set and less than 1000 ms apart. Its properties are IdlessRecordsMatch, KnownGrows, KnownPermutation and Persisted's matching clause |
| History.CompletedCalls | main.js:1135 | a record is kept exactly when it is in the shared history and completed |
| History.Persisted | main.js:1147-1152 | the pushed record keeps id, code and status, and still matches the original call. A set timestamp is kept, and a missing one becomes the save time. A reset time is kept exactly when it is truthy, otherwise it becomes null. `dateAdded` is the save time |
| History.Absorb | main.js:1139-1155 | one `forEach` step: afterwards the call always has a match. A known call leaves the history as it is, and an unknown one appends its stamped copy |
| History.AppendUnmatched | main.js:1138-1156 | the merge only appends: the old history is a prefix, and at most one record is added per call |
| History.MergeAddsOnlyUnmatched | main.js:1138-1156 | every appended record is the stamped copy of a completed call that matched no record before it, earlier pushes included |
| History.MergeCovers | main.js:1138-1156 | after the merge every merged call has a matching record |
| History.MergeOfKnownAddsNothing | main.js:1138-1156 | calls that all have a match already add nothing |
| History.MergeIdempotent | main.js:1138-1156 | merging the same calls a second time, at any later time, changes nothing |
| History.KnownGrows | main.js:1139-1143 | a match found in a history is still found after records are appended |
| History.IdlessRecordsMatch | main.js:1140 | two records that both lack an id always match |
| History.KnownPermutation | main.js:1139-1143 | a reordering of the store finds the same matches |
| History.Insert | main.js:1159 | inserting into a newest-first sequence gives a newest-first permutation with the record added |
| History.HeadBoundsInsert | main.js:1159 | the head of a newest-first sequence bounds every record of the insertion into its tail |
| History.SortNewestFirst | main.js:1159 | the sort gives a newest-first permutation of the history |
| History.SortOfSortedIsSame | main.js:1159 | sorting a history that is already newest first leaves it unchanged |
| History.Take | main.js:1162-1164 | `slice(0, n)`: the first min(length, n) records |
| History.TakeSplits | main.js:1162-1164 | on a newest-first history, the kept records are a sub-multiset and none of the dropped records is newer than a kept one |
| History.TakeKeepsNewest | main.js:1162-1164 | the cap keeps a prefix of min(length, n) records, which are at least as new as every dropped one |
| History.MergeStored | main.js:1131-1164 | the stored history after a save is newest first and has the merged length capped at 10000 |
| History.MergeStoredKeepsNewest | main.js:1131-1164 | the stored records after a save are drawn from the merged history, and every record the cap drops is no newer than every record it keeps |
| History.MergeStoredOrigin | main.js:1131-1164 | every stored record after a save was stored before, or is a stamped completed shared call |
| History.SaveCoversCompleted | main.js:1131-1164 | below the cap, every completed shared call has a match in the store after a save |
| History.SaveTwiceIsSaveOnce | main.js:1131-1164 | below the cap, a second save of the same shared history leaves the stored history as the first save left it |
| History.EndOfDay | main.js:1267 | `setHours(23, 59, 59, 999)` gives the last millisecond of the same day |
| History.InRange | main.js:1261-1279 | the filter callback, written branch by branch, accepts a record exactly when it is at or after the start and no later than the end of the end day |
| History.FilterRange | main.js:1261-1280 | a record is kept exactly when it passes the filter callback |
| History.Query | main.js:1253-1289 | a record is returned exactly when it is at or after the start and no later than the end of the end day. With no bound, the store is returned as is |
| History.FilterKeepsNewestFirst | main.js:1261-1280 | filtering keeps the newest-first order |
| Config.InitialDocument | main.js:253-263 | the initial document holds an empty call history |
| Config.InitialDocumentKeys | main.js:286-296 | the initial document has exactly the keys masterData, masterSettings, alertSettings and callHistoryStorage |
| Config.ShallowMerge | main.js:268-271 | the spread merge has the keys of both documents, the new value winning |
| Config.WithHistoryDefault | main.js:304-307 | a parsed document keeps every other key, and a missing or falsy call history becomes `[]` |
| Config.LoadConfig | main.js:283-324 | the returned document always has a truthy call history. A missing file is created with the initial document. An unreadable file gives the initial document and is left alone. A stored file is returned with exactly its own keys plus the history key, and unchanged when its history is truthy |
| Config.SaveConfig | main.js:245-281 | a save fails exactly when the file is unreadable, and then nothing changes. Otherwise the file holds exactly the keys on file plus the saved keys, the saved values winning. A missing file is first given the initial document |
| Config.SaveOverAbsent | main.js:253-272 | saving over a missing file writes exactly the four initial keys and the saved keys, the saved values winning |
| Config.SaveThenLoad | main.js:245-324 | loading after a successful save gives back every saved key; only a falsy call history is replaced by `[]` |
| Config.WithCompletedCalls | main.js:1129-1178 | the file after a history save: load, merge into the stored history, save. A history that is not an array leaves only loadConfig's effect. Its properties are the lemmas SaveCompletedStoresMerge through SaveCompletedTwice |
| Config.SaveHistoryOverLoaded | main.js:1166-1172 | writing a new call history over the loaded document stores exactly that document with the new history |
| Config.SaveCompletedStoresMerge | main.js:1129-1178 | a save of completed calls stores the loaded document with its history replaced by the merge |
| Config.SaveCompletedLeavesUnreadable | main.js:1129-1178 | an unreadable config file is never overwritten by a history save |
| Config.ResaveFixedHistory | main.js:1129-1178 | a stored history that the merge leaves as it is is written back unchanged |
| Config.SaveCompletedTwice | main.js:1129-1178 | below the cap, saving the same shared history twice leaves the file as one save does |
| Audio.NextPlayable | main.js:769-791 | emission stops at the first present file at or after the index, or at the end, and every file it skipped is missing |
| Audio.NextPlayableAllPresent | main.js:769-791 | with every file present, emission plays the sound the index points at |
| Audio.NextLoopCount | main.js:358-362 | the loop count after a wrap is larger than before: unset becomes 1, otherwise it goes up by one |
| Audio.Acked | main.js:345-362 | the index becomes the acknowledged index plus one, whatever it was before. When that reaches the end it wraps to 0 and counts a loop. Code and sounds are kept, and the index stays inside the list |
| Audio.AckRunWithinLoop | main.js:345-388 | within a loop, n in-order acknowledgements move the index by n and count no loop |
| Audio.FullLoop | main.js:345-388 | one in-order acknowledgement per sound brings the index back to 0 and counts exactly one loop |
| Audio.DuplicateAckRepeats | main.js:350 | below the last sound, acknowledging the same index twice ends where one acknowledgement does |
| Audio.DuplicateLastAckCountsLoop | main.js:350-362 | acknowledging the last sound twice wraps twice and counts a second loop |
| Audio.StaleAckRewinds | main.js:350 | acknowledging an earlier index moves the sequence back to just after it, with no loop counted |
| MainProcess.EmitPlaysFirstPresent | main.js:769-830 | emission plays the first present file at or after the index, with that index, code and length: every file it skips is missing. It plays nothing exactly when all the remaining files are missing, and then leaves the index at the end |
| MainProcess.AfterEmit | main.js:769-791 | the sequence after emission: same code, sounds and loop count, with the index moved forward and still within bounds. Every skipped file is missing, and the file at the new index, if any, is present |
| MainProcess.EmitCommands | main.js:769-830 | what emission broadcasts: at most one play command. Its full property is EmitPlaysFirstPresent |
| MainProcess.ResendCommands | main.js:919-940 | what the restore handlers re-send while playing (and audio-element-ready at main.js lines 984-1004): exactly the current sound's play command when the index is inside the list, and nothing otherwise |
| MainProcess.PushUnmatched | main.js:1138-1156 | the `forEach` loop computes the merge |
| MainProcess.Process.constructor | main.js:41-52 | start-up state: nothing playing, no timer, no snapshot, empty shared state |
| MainProcess.Process.SendAudioToMainWindow | main.js:769-830 | the live sequence moves to the first present file and exactly that play command is broadcast; with no live sequence nothing changes |
| MainProcess.Process.StopCurrentAudio | main.js:833-873 | nothing is live or playing, the loop timer is cleared and one stop command is sent |
| MainProcess.Process.PlayPersistentSounds | main.js:702-736 | any playing sequence is stopped first. The code's persistent entry is recorded. The new sequence starts at index 0 and is emitted |
| MainProcess.Process.PersistentAudioEnded | main.js:345-388 | only the live code while playing is affected. The index becomes the acknowledged index plus one. Past the end the sequence wraps, counts a loop and arms the timer. Otherwise the next sound is emitted |
| MainProcess.Process.LoopDelayElapsed | main.js:372-381 | the timer fires only if set and emits the live sequence from its current index, which is 0 unless an acknowledgement arrived during the delay. No timer is left afterwards |
| MainProcess.Process.StopPersistentSounds | main.js:739-766 | the code's entry is removed, and the live sequence is stopped whatever its code. Stop and sound-stopped are broadcast |
| MainProcess.Process.SaveAudioBeforeNavigation | main.js:421-435 | while playing, the snapshot becomes a copy of the live sequence with the time; otherwise it is kept |
| MainProcess.Process.OpenDisplay | main.js:415-446 | clears the navigating-from-display flag and takes the snapshot |
| MainProcess.Process.BackToMain | main.js:448-476 | sets the navigating-from-display flag and takes the snapshot |
| MainProcess.Process.RestoreAudioAfterNavigation | main.js:910-969 | while playing, the current sound is re-sent and nothing changes. Otherwise a snapshot is installed, emitted and dropped. With neither, nothing changes. The status says which case happened |
| MainProcess.Process.AudioElementReady | main.js:972-1030 | marks the element present, then makes the same three-way decision as restore, with its own status names |
| MainProcess.Process.SaveCompletedCallsToPersistentStorage | main.js:1129-1178 | the config file becomes WithCompletedCalls of the old file and the shared history |
| MainProcess.Process.UpdateCallHistory | main.js:1082-1126 | each present part replaces the shared one. A new call history is saved. One snapshot of the resulting state is broadcast |
| MainProcess.Process.ReplaceCallHistory | main.js:1095-1101 | a present call history becomes the shared history and its completed calls are saved |
| MainProcess.Process.ReplaceDisplayState | main.js:1102-1114 | present alerts, sound entries and blink entries replace the stored ones, the maps built as `new Map(entries)` |
| MainProcess.Process.BroadcastCallHistoryUpdate | main.js:1193-1230 | one call-history-updated snapshot of the current shared state is sent |
| MainProcess.Process.GetPersistentCallHistory | main.js:1253-1289 | returns the date query of the stored history after loadConfig, or `[]` when the store is not an array |
| MainProcess.Process.LoadPersistentCallHistoryAtStartup | main.js:1292-1313 | the first 100 stored records become the shared history and are returned. Which records these are after a history save is StartupAfterSaveReadsNewest |
| Config.StartupAfterSaveReadsNewest | main.js:1292-1313 | after a history save, the first 100 stored records that start-up reads are newest first, and no record left unread is newer than one read |
| Scenarios.LoopWithTwoSounds | main.js:345-388 | two sounds acknowledged in order, then the delay: a, b, a are played and the loop count is 1 |
| Scenarios.RestartSameCode | main.js:702-736 | restarting the playing code sends a stop and plays from the first sound again |
| Scenarios.StopDuringNavigationIsUndone | main.js:910-969 | a stop while the display is open is undone by the restore on return |
| Scenarios.AckDuringDelay | main.js:345-388 | a stale acknowledgement during the loop delay plays the second sound at once, and the timer then plays it again from that index |
| Scenarios.LateTimerAfterStop | main.js:833-873 | a stop during the loop delay clears the timer, and its expiry plays nothing |
| Scenarios.MissingLastFileStalls | main.js:769-791 | a missing last file leaves the sequence playing past its end, with no timer and no sound |

## Left out

- Electron windows, `loadFile`, the hidden audio window, serial ports, dialogs and system notifications: these are outside the modelled core.
- Fan-out to several windows: each broadcast is one `log` entry. The extra copy sent to the main window, and the `if (mainWindow)` guard on sound-stopped, are not modelled, because both depend on which windows exist.
- File I/O and JSON: `config.json` is a value that is absent, unreadable or holds a document. Write failures and the `JSON.stringify` layout are not modelled. Nested values other than the call history are kept as opaque text.
- Timers: the loop delay is a pending-timer field, and `LoopDelayElapsed` is its expiry. The 200 ms wait in `audio-element-ready`, the 5-minute auto-save and the save on window close are not modelled. The latter two call `SaveCompletedCallsToPersistentStorage`.
- Clocks: `Date.now()` and `new Date()` are the `now` parameters. Timestamps are integer milliseconds. The ISO-string conversion is the identity.
- History.EndOfDay: `setHours` works in the local time zone, and the model uses UTC days.
- File existence: the sound files on disk are a `files` set parameter.
- `audio-ended` is left out: it calls a function that is not defined, so it updates `currentIndex` and then fails.
- `get-current-audio-status`, `get-call-history`, `force-broadcast-call-history`, the display-config handlers and `load-config`/`save-config` are not part of this model.
- `globalAudioPlayer` is never set in `main.js`, so clearing it in `stopCurrentAudio` is omitted.
- Console logging is not modelled, and neither is `scripts/`.
- Config.SaveConfig: the `!data` branch is not modelled, because every caller in the core passes a document.
- MainProcess.Process.PersistentAudioEnded: the acknowledged index is a natural number. A negative or non-numeric index is not modelled.
- MainProcess.Process.GetPersistentCallHistory: a stored history that is not an array is modelled as giving `[]`. Without a date bound, `main.js` would return that raw value.
- MainProcess.Process.UpdateCallHistory: the throw path that returns `false`, for example when the payload is missing, is not modelled.
- History.SameCall: a record's id is an `Option`, so an explicit `id: null` and a missing id are both `None` and match each other. `main.js`'s `===` tells them apart.
- History.CompletedCalls and History.FilterRange: their contracts state membership only. That `filter` keeps order and duplicates is not stated.
- History.SortNewestFirst: stability of the sort is not stated. A stored record without a timestamp, which would compare as `NaN`, is modelled with timestamp 0.
- Map insertion order is not modelled. `persistentSounds` and `persistentBlinking` are maps, so the order of the broadcast entry arrays is not represented.
- The `wasPlaying` flag of the snapshot is always true and is not kept. The `timestamp` it carries is deleted on restore.
