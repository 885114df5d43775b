# LittleSpeaker playback core in Dafny

This project models the playback core of the LittleSpeaker firmware, an
ESP32 audio jukebox. It covers four parts:

- **Playlist** (`Playlist.dfy`, module `Playlist`). A fixed-size ring of
  file names with its read and write markers. A five-state playback machine
  (Stopped, Playing, Paused, Skipping, Reset). The item resolver that picks a
  stream or an MP3-file chain. The `loop` tick that dequeues, builds, steps
  and tears down the audio chain and fires the end-of-playlist callback.
  The class `Playlist` keeps the ring in an `array`. Each of its methods is
  proved equal to a function on the `Snapshot` value, and the properties are
  proved about those functions.
- **Menu** (`Menu.dfy`, module `Menus`). The menu tree. Selection wraps.
  Calls on a menu that is in a submenu are forwarded to the active submenu.
  Enter and leave change state. A button menu answers select and enter with
  its press callbacks. The callbacks the source invokes are returned as an
  event trace.
- **SD-card player** (`SdCard.dfy`, module `SdCard`). The album and track
  filters, the k-th-entry scans, and the m3u and identity track tables that
  `switchAlbum` builds. Also `play`, `previous`, `next`, `pause`, `announce`,
  `reset`, `setState`, and the `sdLeave` and `sdPlaylistEnd` callbacks.
- **Web-radio player** (`Webradio.dfy`, module `Webradio`). The station-offset
  parser over `/webradio.txt`, station navigation, announcements, `play`,
  `pause` and `reset`.

`Util.dfy` holds what the other files share:

- an `Option` type for returns that may be NULL;
- the ASCII folding of `strcasecmp`;
- `%d` formatting and `snprintf` truncation;
- Arduino's `readBytesUntil`.

The SD card is an in-memory value (`SdCard.Card`). It has a directory
listing per path and the contents of each file. The players do not call the
playlist object. They return the sequence of playlist calls they make
(`Playlist.PlaylistCall`), and they take the playlist state that
`getState()` reports as a parameter. `Playlist.ApplyCalls` gives the effect
of such a trace, and lemmas state what each player leaves queued.

## Model

| member | source | states |
|---|---|---|
| Util.Lower | src/sdcard.cpp:38 | ASCII case folding as `strcasecmp` applies it: only 'A'..'Z' change, by +32, and the result holds no upper-case letter |
| Util.Folded | src/sdcard.cpp:160 | the string folded by `tolower` character by character, length kept |
| Util.EqualsIgnoreCase | src/sdcard.cpp:160 | `strcasecmp(a, b) == 0` exactly when the folded strings are equal |
| Util.StartsWith | src/playlist.cpp:192 | `strncmp(prefix, s, n) == 0` exactly when the prefix is no longer than s and agrees with it character by character |
| Util.EndsWithIgnoreCase | src/playlist.cpp:210 | the suffix test holds exactly when the suffix fits and the folded name ends with the folded suffix |
| Util.FormatNat | src/sdcard.cpp:399 | `%d` of a non-negative number: digits only, no leading zero, a single digit exactly below 10 |
| Util.FormatInt | src/webradio.cpp:144-149 | `%d` of an int: a leading minus sign exactly for a negative number, digits everywhere else, and a leading 0 only for 0 itself |
| Util.ParseFormatInt | src/webradio.cpp:144-149 | round trip: reading back the sign and digits `%d` prints gives the int back |
| Util.ParseFormatNat | src/sdcard.cpp:399 | round trip: parsing the digits FormatNat prints gives the number back |
| Util.FormatNatInjective | src/sdcard.cpp:408 | two numbers print alike only when they are equal, so distinct numbers announce distinct files |
| Util.Bounded | src/sdcard.cpp:185 | `snprintf(buffer, size, ...)` keeps a prefix of the text of at most size-1 bytes: the whole text exactly when it is shorter than size, otherwise exactly size-1 bytes |
| Util.ReadCount | src/webradio.cpp:48 | the number of bytes a read stores is at most the limit and stays within the data |
| Util.ReadBytesUntil | src/webradio.cpp:30 | a read stores at most `length` bytes and moves forward whenever data remains |
| Util.ReadBytesUntilFacts | src/webradio.cpp:30-31 | the stored bytes are the input from the read position and hold no terminator; one more byte, the terminator, is consumed exactly when the read stopped short of the limit and of the end |
| Util.ReadBytesUntilStopsAt | src/webradio.cpp:48 | a read stops at the first terminator inside its limit and consumes it |
| Playlist.Pending | src/playlist.cpp:95-113 | the pending items number (write - read) mod N, 0 while read is -1, are always fewer than N, and start with the slot at the read marker |
| Playlist.Advance | src/playlist.cpp:81-84 | the increment-and-wrap of the markers is +1 mod N and stays in [0, N) |
| Playlist.Enqueue | src/playlist.cpp:60-93 | addFilename accepts exactly when the name has at most 256 bytes, the lock is taken and write != read - 1; a refusal changes nothing; an accepted add stores the name at the write marker, advances it mod N and sets read from -1 to 0; state, callback and chain are untouched |
| Playlist.EnqueueIntended | src/playlist.cpp:73-78 | with the reserved-slot full test, an add is accepted exactly when fewer than N-1 items are pending, and then appends the name to the pending items |
| Playlist.Consume | src/playlist.cpp:95-122 | consumeItem yields nothing and changes nothing on a lock timeout or an empty ring; otherwise it yields the head of the pending items, the rest stay pending, and read advances mod N |
| Playlist.Clear | src/playlist.cpp:168-183 | stopAndClear empties the queue, enters Reset and forgets the end callback and context; on a lock timeout nothing changes |
| Playlist.RegisterEnd | src/playlist.cpp:185-188 | the new callback and context replace the old ones; the queue is unchanged |
| Playlist.AfterPlay | src/playlist.cpp:128-146 | play never leaves a stopped, paused or skipping playlist: the result is Playing or Reset, and Reset exactly when it was Reset |
| Playlist.AfterPause | src/playlist.cpp:148-159 | pause yields Paused exactly from Playing, turns Paused into Playing and leaves every other state alone |
| Playlist.AfterSkipIntended | src/playlist.cpp:161-166 | the intended skip yields Skipping exactly from Playing, Paused or Skipping, and leaves Stopped and Reset as they are |
| Playlist.Classify | src/playlist.cpp:191-231 | a case-sensitive "http://" prefix selects the stream chain; otherwise a case-insensitive ".mp3" suffix selects the file chain; anything else is refused |
| Playlist.DecoderAccepts | src/playlist.cpp:233-244 | a decoder is created exactly for the names the source stage accepted |
| Playlist.Teardown | src/playlist.cpp:246-264 | destroyAudioChain leaves decoder, source and base absent and keeps the ring invariant, the pending items, the markers, the state, the end callback and its context |
| Playlist.Dispatch | src/playlist.cpp:299-333 | the state switch keeps the queue and the callback; Paused changes nothing; Reset and Skipping go to Playing; every state but Playing and Paused ends with no decoder |
| Playlist.Fetch | src/playlist.cpp:269-297 | with no decoder outside Stopped and Reset, an empty queue stops playback; a registered callback is cleared, fired with its context, its calls are carried out on the stopped playlist, and only then is the context cleared; a chain is built only when the loop goes on to the switch, which keeps the state |
| Playlist.Tick | src/playlist.cpp:266-334 | a tick that fires the end callback fires the registered one with its context and leaves no decoder and no context; the callback left registered is the last one the callback itself registered, if any |
| Playlist.TickIntended | src/playlist.cpp:275-280 | with the context cleared before the call, the tick fires the same callback and, when nothing fires, is Tick; after a fired callback the registration left is exactly the last one the callback made, context included |
| Playlist.ApplyCall | src/playlist.cpp:60-188 | the effect of one player call keeps the ring invariant, the ring size and the decoder |
| Playlist.ApplyCalls | src/playlist.cpp:60-188 | a trace of player calls keeps the ring invariant, the ring size and the decoder |
| Playlist.StateAfter | src/playlist.cpp:124-188 | the state a trace leaves: adds and registrations keep it, and a trace that ends with stopAndClear leaves Reset |
| Playlist.RegistrationAfterCalls | src/playlist.cpp:168-188 | the end callback and context a trace leaves are its last registration, unless a later stopAndClear forgot it |
| Playlist.NoRegistrationNoCallback | src/playlist.cpp:168-188 | calls that register nothing leave no callback where there was none, and no context where there was none |
| Playlist.ContextIrrelevant | src/playlist.cpp:60-188 | calls that register nothing never read the end context: two playlists differing only in it stay so |
| Playlist.AppendAtWrite | src/playlist.cpp:80-89 | with at most N-2 items pending, storing at the write marker and advancing appends the name to the pending items |
| Playlist.FullIntendedIsCount | src/playlist.cpp:73 | the reserved-slot full test holds exactly when N-1 items are pending |
| Playlist.ConsumeAtRead | src/playlist.cpp:107-113 | advancing the read marker drops the head of the pending items |
| Playlist.EnqueueAppends | src/playlist.cpp:60-93 | FIFO: with at most N-2 items pending, an add is accepted exactly when the name fits and the lock is taken, and then appends the name; a refusal leaves the queue as it was |
| Playlist.FullTestMissesWrap | src/playlist.cpp:73-78 | with read at 0 and write at N-1 (N-1 items pending), the as-written test accepts one more add and the queue then looks empty |
| Playlist.CapacityThreeScenario | src/playlist.cpp:73-89 | with 3 slots, "a", "b", "c" and "d" are all accepted; after "c" nothing is pending and after "d" only "d" is |
| Playlist.CapacityThreeIntended | src/playlist.cpp:73-89 | with the intended test, "a" and "b" are accepted, "c" is refused and "a", "b" stay pending |
| Playlist.EnqueueFullIsIdempotent | src/playlist.cpp:73-78 | when the as-written test detects a full ring (read >= 1), every add is refused and the ring stays as it was |
| Playlist.AddsAppend | src/playlist.cpp:60-93 | a run of accepted adds appends the names in order and keeps the state and the callback |
| Playlist.ClearThenEnqueue | src/playlist.cpp:168-183 | stopAndClear, adds, play leaves exactly the added names queued, in Reset with no end callback, whatever was queued before |
| Playlist.StateAfterCalls | src/playlist.cpp:124-126 | the state getState reports after a trace of player calls depends only on the state before it |
| Playlist.PauseTwice | src/playlist.cpp:148-159 | pause twice from Playing or Paused restores the state |
| Playlist.DrainFiresOnce | src/playlist.cpp:270-281 | after the tick that fires the end callback, the next tick does not fire it again unless the callback registered one while it ran |
| Playlist.DrainStops | src/playlist.cpp:269-283 | with no pipeline and an empty queue outside Stopped and Reset, a tick fires exactly when a callback was registered; without one it stops with an empty queue; with one the result is the callback's calls on the stopped playlist with the context cleared afterwards |
| Playlist.LockTimeoutLooksLikeDrain | src/playlist.cpp:96-99 | a lock timeout in consumeItem is read as an empty queue: a playing tick stops although items stay pending, and fires the callback exactly when one was registered |
| Playlist.ReRegisteredContextIsLost | src/playlist.cpp:276-279 | as written, a callback that registers itself again with a context keeps the callback but loses the context; with the intended order the context survives |
| Playlist.IntendedAgreesWithoutRegistration | src/playlist.cpp:275-280 | for a callback that registers nothing, the intended tick and the tick as written agree entirely |
| Playlist.PlayingTickStartsHead | src/playlist.cpp:269-297 | with no pipeline, a playing tick dequeues the head and builds its chain exactly when the name is supported |
| Playlist.ResetOrSkipTearsDown | src/playlist.cpp:299-317 | Reset ticks, and Skipping ticks on a pipeline, tear the chain down and go to Playing |
| Playlist.SkipWithoutPipelineDropsHead | src/playlist.cpp:269-317 | a skip with no pipeline dequeues the head on the next tick and throws it away |
| Playlist.PausedTickIsNoop | src/playlist.cpp:318-319 | a paused tick with a pipeline changes nothing and fires nothing |
| Playlist.TeardownIdempotent | src/playlist.cpp:246-264 | tearing down twice is tearing down once |
| Playlist.PauseResumeKeepsPipeline | src/playlist.cpp:148-159 | pause, a tick, pause again restores the playing state and the pipeline |
| Playlist.SkipAdvancesToNext | src/playlist.cpp:313-317 | skip while playing with items queued: the next tick tears down, the one after starts the next item, and the end callback is not fired |
| Playlist.StopAndClearSettles | src/playlist.cpp:266-312 | after stopAndClear, the first tick tears down into Playing and the second stops with an empty queue, firing nothing |
| Playlist.SkipFromStoppedPlaysSecond | src/playlist.cpp:161-166 | as written, skip from Stopped with two items queued starts playback and consumes the first item on the next tick |
| Playlist.SkipIntendedFromStoppedIsNoop | src/playlist.cpp:161-166 | with the intended skip, a stopped playlist stays stopped with its queue on the next tick |
| Playlist.Playlist.constructor | src/playlist.cpp:21-41 | an empty ring of maxEntries slots, read -1, write 0, Stopped, no callback and no chain |
| Playlist.Playlist.AddFilename | src/playlist.cpp:60-93 | the new state and the result are those of Enqueue; the slot array stays in place |
| Playlist.Playlist.ConsumeItem | src/playlist.cpp:95-122 | the new state and the item are those of Consume; only the read marker changes |
| Playlist.Playlist.Play | src/playlist.cpp:128-146 | the state becomes AfterPlay of the old one |
| Playlist.Playlist.Pause | src/playlist.cpp:148-159 | the state becomes AfterPause of the old one |
| Playlist.Playlist.Skip | src/playlist.cpp:161-166 | the assignment in the condition makes every state Skipping, Stopped and Reset included |
| Playlist.Playlist.StopAndClear | src/playlist.cpp:168-183 | the new state is Clear of the old one |
| Playlist.Playlist.RegisterPlaylistEndCallback | src/playlist.cpp:185-188 | the new state is RegisterEnd of the old one |
| Playlist.Playlist.SetupAudioSourceForFile | src/playlist.cpp:191-231 | succeeds exactly for the names Classify accepts, and then base and source exist |
| Playlist.Playlist.SetupDecoderForFile | src/playlist.cpp:233-244 | succeeds exactly for the names Classify accepts, and then the decoder exists |
| Playlist.Playlist.DestroyAudioChain | src/playlist.cpp:246-264 | the new state is Teardown of the old one |
| Playlist.Playlist.Perform | src/playlist.cpp:60-188 | one player call on the object has the effect ApplyCall gives |
| Playlist.Playlist.RunCalls | src/playlist.cpp:60-188 | the calls one after the other have the effect ApplyCalls gives |
| Playlist.Playlist.StartItem | src/playlist.cpp:285-296 | the chain is built exactly for a supported name; an unsupported one is torn down as by Teardown |
| Playlist.Playlist.FireEndCallback | src/playlist.cpp:276-279 | the registered callback is cleared and fired with its context, its calls are carried out on the object, and only then is the context cleared |
| Playlist.Playlist.FetchNext | src/playlist.cpp:269-297 | the new state, the fired callback and the go-on flag are those of Fetch, with the callback's calls carried out on the object before the context is cleared |
| Playlist.Playlist.Loop | src/playlist.cpp:266-334 | the new state and the fired callback are those of Tick |
| Menus.WrapNext | src/menu.cpp:138-139 | the next index is (i + 1) mod n and stays in [0, n) |
| Menus.WrapPrev | src/menu.cpp:169-170 | the previous index is (i - 1) mod n and stays in [0, n) |
| Menus.WrapInverse | src/menu.cpp:136-171 | previous after next, and next after previous, restore the index |
| Menus.NextTimes | src/menu.cpp:137-141 | any number of next presses keeps the index in [0, n) |
| Menus.NextTimesWithinTurn | src/menu.cpp:137-141 | k <= n presses advance the index by k, wrapping once past the end |
| Menus.NextTimesFullCircle | src/menu.cpp:137-141 | n presses go all the way round to the same item |
| Menus.Terminator | src/menu.cpp:74-79 | the position of the first NULL of an item list: every entry before it is an item |
| Menus.Entries | src/menu.cpp:91-96 | the items of a NULL-free prefix, entry by entry |
| Menus.EntriesAre | src/menu.cpp:91-96 | items copied entry by entry from a list prefix are Entries of that prefix |
| Menus.CountEntries | src/menu.cpp:74-79 | the counting loop stops at the first NULL and every entry before it is an item |
| Menus.Menu.UiEvents | src/menu.cpp:149-157 | the UI update runs the display callback first and the audio callback last, each exactly when it is set |
| Menus.Menu.constructor | src/menu.cpp:60-63 | a new standard menu: no items, in this menu (index 0 and no callbacks, see Left out) |
| Menus.Menu.Button | src/menu.cpp:267-275 | a button menu keeps its three press callbacks and starts with one item, index 0, in this menu (no UI callbacks, see Left out) |
| Menus.Menu.SetDisplayUpdateCallback | src/menu.cpp:107-109 | sets the display callback |
| Menus.Menu.SetAudioAnnounceCallback | src/menu.cpp:111-113 | sets the audio callback |
| Menus.Menu.SetEnterCallback | src/menu.cpp:115-117 | sets the enter callback |
| Menus.Menu.SetLeaveCallback | src/menu.cpp:119-121 | sets the leave callback |
| Menus.Menu.MarkUnknown | src/menu.cpp:97-100 | a submenu taken over by setItems enters the Unknown state |
| Menus.Menu.SetItems | src/menu.cpp:72-105 | the menu holds exactly the items before the first NULL, numItems is their count, the selection is 0, every submenu is Unknown, and the state and callbacks are kept |
| Menus.Menu.CopyEntries | src/menu.cpp:91-101 | the copy loop takes entry k of the list as item k for every k below the count and marks each submenu Unknown |
| Menus.GetItemFollowsList | src/menu.cpp:72-129 | after setItems(list), getItem(k) is the list's own entry for k up to the terminating NULL (NULL there) and NULL for every other k |
| Menus.Menu.SelectNextItem | src/menu.cpp:131-160 | the active menu advances its index with WrapNext and every menu on the chain reports the new item, innermost first; the chain above keeps its selection; a button only runs its next callback and returns NULL; an Unknown menu does nothing; the active menu keeps its state, items and callbacks (a button its selection too) and no other menu changes |
| Menus.Menu.ForwardNext | src/menu.cpp:143-147 | a menu in a submenu forwards next to the selected item's submenu and then reports the item itself; the active menu keeps its state, items and callbacks and no other menu changes |
| Menus.Menu.SelectPreviousItem | src/menu.cpp:162-191 | as SelectNextItem with WrapPrev; a button only runs its previous callback; the active menu keeps its state, items and callbacks and no other menu changes |
| Menus.Menu.ForwardPrevious | src/menu.cpp:174-178 | a menu in a submenu forwards previous to the selected item's submenu; the active menu keeps its state, items and callbacks and no other menu changes |
| Menus.Menu.EnterItem | src/menu.cpp:193-225 | enterItem always returns NULL; every menu on the enter path moves into its submenu with its selection, items and callbacks kept, and the item, enter and press callbacks run in source order |
| Menus.Menu.EnterHere | src/menu.cpp:198-210 | in this-menu state the selected item is called; with a submenu the menu enters it, runs its enter callback and forwards enterItem into it in the same call; items and callbacks on the path are kept |
| Menus.Menu.ForwardEnter | src/menu.cpp:207-210 | a menu already in a submenu forwards enterItem to it; items and callbacks on the path are kept |
| Menus.Menu.LeaveTarget | src/menu.cpp:227-261 | leaveItem returns NULL exactly outside the submenu state; otherwise a standard menu that has items |
| Menus.Menu.LeaveItem | src/menu.cpp:227-261 | the active menu goes to Unknown (index 0 when it was in this menu); the menu above returns to this-menu state with its selection and items kept and is returned; the leave and UI callbacks run in source order; every menu that changes keeps its items and callbacks |
| Menus.Menu.ForwardLeave | src/menu.cpp:235-259 | the submenu branch of leaveItem: forwarded leave, return to this-menu state, UI update for the returned menu; every menu that changes keeps its items and callbacks |
| Menus.Menu.ReturnFromSelected | src/menu.cpp:239-240 | a menu in a submenu returns to this-menu state |
| SdCard.FindName | src/sdcard.cpp:160-165 | the first position whose name equals the search ignoring case; none exactly when no name matches |
| SdCard.FilterMembers | src/sdcard.cpp:107-118 | an entry survives the scan filter exactly when it is listed and eligible |
| SdCard.Filter | src/sdcard.cpp:107-118 | the scan filter never adds entries (which ones survive is FilterMembers) |
| SdCard.FilterAt | src/sdcard.cpp:120-126 | an eligible entry at position i is the filter's entry number (eligible entries before i), which is how the scans count |
| SdCard.IndexAsWritten | src/sdcard.cpp:135-172 | the as-written lookup: -1 exactly when no name matches or the first entry matches; any other result r has a match at position r + 1 |
| SdCard.IntendedIndex | src/sdcard.cpp:135-172 | the intended lookup: -1 exactly when no name matches, otherwise the position of the first match |
| SdCard.IndexAsWrittenIsShifted | src/sdcard.cpp:135-172 | a first match at position p yields p - 1, no match yields -1, and the result is above 0 exactly for a match at position 2 or later |
| SdCard.ThirdTrackPlaysSecond | src/sdcard.cpp:199-205 | for tracks a, b, c a playlist line "C.MP3" keeps index 1, which names b.mp3 |
| SdCard.IntendedIndexRoundTrip | src/sdcard.cpp:135-172 | the intended lookup finds a track's own name at its own position when no earlier name equals it |
| SdCard.IntendedIndexNamesSearch | src/sdcard.cpp:135-172 | whatever the intended lookup returns is -1 or names a track equal to the search ignoring case |
| SdCard.CString | src/sdcard.cpp:199-201 | the C string a buffer holds: its bytes before the first NUL |
| SdCard.Printed | src/sdcard.cpp:185-187 | `snprintf` into the 256-byte buffer: for a NUL-free text the C string the buffer then holds is the text cut to 255 bytes; the bytes after its terminator are the old ones |
| SdCard.PlaylistFile | src/sdcard.cpp:182-191 | "path/album.m3u" when it exists, otherwise "path/album.m3u8" when that exists, otherwise none; the 256-byte name buffer then holds the chosen name as a C string |
| SdCard.ReadLine | src/sdcard.cpp:194-198 | one line read leaves a 256-byte buffer and moves forward whenever data remains, never past the end |
| SdCard.ReadLineIsLastLine | src/sdcard.cpp:194-198 | one pass is its closed form LastLine: the last read of the line written over the old buffer when it is the only read, over the 256 bytes of the read before it otherwise, and the position after that read |
| SdCard.LastReadIsShort | src/sdcard.cpp:196-198 | the inner loop stops at the first read that does not fill the 256-byte buffer, and when earlier reads filled it, 256 bytes lie behind that last read |
| SdCard.LastReadStart | src/sdcard.cpp:194-198 | where the read that ends a line starts: at or after the position and within the data |
| SdCard.LineEntry | src/sdcard.cpp:199-205 | a line adds at most one entry: an as-written index above 0 whose successor position is a track of the album |
| SdCard.M3uTable | src/sdcard.cpp:192-208 | the table from a playlist file has at most one entry per remaining byte, each above 0 and naming a track |
| SdCard.Table | src/sdcard.cpp:192-242 | every entry of the track table names a track of the album; with a playlist file none is 0 |
| SdCard.Switch | src/sdcard.cpp:174-250 | switchAlbum keeps the player within its tables |
| SdCard.PlaySpec | src/sdcard.cpp:252-302 | play keeps the player within its tables |
| SdCard.AnnounceAndPlaySpec | src/sdcard.cpp:366-369 | the announce-and-play tail keeps the player within its tables |
| SdCard.PreviousSpec | src/sdcard.cpp:305-339 | previous keeps the player within its tables |
| SdCard.NextSpec | src/sdcard.cpp:341-373 | next keeps the player within its tables |
| SdCard.NextIntended | src/sdcard.cpp:357-370 | the intended next keeps the player within its tables |
| SdCard.PauseSpec | src/sdcard.cpp:375-387 | pause keeps the player within its tables |
| SdCard.PlaylistEndSpec | src/sdcard.cpp:464-471 | the end callback keeps the player within its tables |
| SdCard.PlaylistEndIntended | src/sdcard.cpp:464-471 | the end callback over the intended next keeps the player within its tables |
| SdCard.StepsAreInverse | src/sdcard.cpp:312-355 | with looping, a step back undoes a step forward and the other way round, both within [0, count) |
| SdCard.StepForward | src/sdcard.cpp:341-370 | from an index in [0, count): with looping the step forward is (i + 1) mod count, without looping it stops at count - 1; the result stays in [0, count) |
| SdCard.StepBack | src/sdcard.cpp:312-337 | from an index in [0, count): with looping the step back is (i - 1) mod count, without looping it stops at 0; the result stays in [0, count) |
| SdCard.MenuNextThenPrevious | src/sdcard.cpp:305-356 | in the album menu, looping next succeeds, stays in range, and previous then restores the player |
| SdCard.MenuBrowsingKeepsTable | src/sdcard.cpp:312-356 | browsing in the album menu moves only the album index (wrapping or clamping); the track table stays |
| SdCard.PlayCurrentKeepsPosition | src/sdcard.cpp:263-278 | playing the current album's current track keeps album, track, table and album count |
| SdCard.PlayOutOfRangeEnqueuesNothing | src/sdcard.cpp:253-271 | an album outside [0, maxAlbum) changes nothing and enqueues nothing; a track outside [0, maxTrack) enqueues nothing |
| SdCard.PlayQueuesTrack | src/sdcard.cpp:274-297 | a track that resolves to a file registers the end callback, queues "path/name" and plays, and the player enters playback at that track |
| SdCard.SwitchWithoutPlaylistFile | src/sdcard.cpp:209-242 | without a playlist file, maxTrack is the number of eligible tracks and the table is the identity |
| SdCard.IdentityTablePlaysInOrder | src/sdcard.cpp:252-297 | with the identity table, position t plays the t-th eligible track of the album |
| SdCard.AnnounceQueuesNames | src/sdcard.cpp:389-413 | an announcement leaves exactly its files queued, in order, in Reset |
| SdCard.AlbumAnnouncement | src/sdcard.cpp:393-405 | an album announces its own album.mp3 when it exists, otherwise "/system/album.mp3" and its number file |
| SdCard.ResetAnnouncesFirstAlbum | src/sdcard.cpp:415-419 | reset selects album 0, track 0 and leaves the first album's announcement queued |
| SdCard.ResetSpec | src/sdcard.cpp:415-419 | reset sets album and track to 0, keeps the state and the tables, and makes clear, adds only, play |
| SdCard.PauseFromMenuStartsAlbum | src/sdcard.cpp:376-381 | pause in the album menu enters playback at track 0 after a clear and the track announcement |
| SdCard.PauseInPlaybackToggles | src/sdcard.cpp:382-386 | pause in playback toggles a playing or paused playlist and otherwise does nothing |
| SdCard.SetStateSpec | src/sdcard.cpp:425-431 | setState sets the state and changes nothing else; it makes calls exactly when it goes from playback to the album menu, and they are the album announcement |
| SdCard.LeaveSpec | src/sdcard.cpp:448-457 | sdLeave always ends in the album menu and returns true exactly from there, changing nothing; from playback it returns false with only the state changed and the album announcement made |
| SdCard.PreviousInPlayback | src/sdcard.cpp:323-337 | previous in playback succeeds exactly when looping or past track 0, steps the track back within range and keeps album and table; a failure sets track 0 |
| SdCard.EndOfTrackAlwaysStops | src/sdcard.cpp:464-471 | as written, every end of playlist in playback jumps to the last track and queues only the "stopped" notice |
| SdCard.NextInPlaybackRestartsAlbum | src/sdcard.cpp:358-369 | as written, next with loop in playback (the default that `sdNext`, src/sdcard.cpp:436-440, uses) always plays position 0 of the same album, announced when asked, with the same table, whatever the current track |
| SdCard.EndOfTrackPlaysNextIntended | src/sdcard.cpp:464-471 | with the intended next, the end of a track with a successor queues that successor and plays it |
| SdCard.ReRegistrationLosesPlayer | src/playlist.cpp:276-279 | as written, the tick that fires the re-registering sdPlaylistEnd leaves it registered with no context (the player pointer is lost); with the intended order the context is the player again |
| SdCard.ShortLineKeepsStaleBytes | src/sdcard.cpp:194-201 | as written, the line "x.mp3" in /a/album.m3u is looked up as "x.mp3bum.m3u" |
| SdCard.ReadLineIntended | src/sdcard.cpp:194-198 | the terminated read keeps a 256-byte buffer and stays within the data |
| SdCard.IntendedLineIsLookedUpAsRead | src/sdcard.cpp:194-201 | with the terminated read, a line that fits is looked up as exactly its own text |
| SdCard.SDPlayer.constructor | src/sdcard.cpp:13-48 | albums are counted and album 0 is switched to: the player is Initial(card) |
| SdCard.SDPlayer.PathOfAlbumAtIndex | src/sdcard.cpp:60-92 | the scan returns the path of the k-th eligible album, NULL when there is none |
| SdCard.SDPlayer.NameOfTrackAtIndex | src/sdcard.cpp:94-133 | the scan returns the name of the k-th eligible track, NULL when there is none |
| SdCard.SDPlayer.IndexForFilenameAtPath | src/sdcard.cpp:135-172 | the scan returns the as-written (shifted) index of the search among the eligible tracks |
| SdCard.SDPlayer.SwitchAlbum | src/sdcard.cpp:174-250 | the new player and the path are those of Switch |
| SdCard.SDPlayer.FillFromPlaylistFile | src/sdcard.cpp:192-208 | the table filled from the playlist file is the M3uTable of its bytes |
| SdCard.SDPlayer.ReadInto | src/sdcard.cpp:194-198 | the read loops leave ReadLine's buffer and position |
| SdCard.SDPlayer.AddLineEntry | src/sdcard.cpp:199-206 | one line of the playlist file appends exactly its LineEntry to the table |
| SdCard.SDPlayer.FillIdentity | src/sdcard.cpp:209-242 | the directory branch fills the identity table over the eligible tracks |
| SdCard.SDPlayer.Play | src/sdcard.cpp:252-302 | the new player and the calls are those of PlaySpec |
| SdCard.SDPlayer.SelectAlbum | src/sdcard.cpp:258-265 | another album is switched to with its current track set to the requested one, or 0; the same album is looked up again; the result is ChooseAlbum |
| SdCard.SDPlayer.PlayTrack | src/sdcard.cpp:267-301 | the track part of play: the new player and the calls are PlayTrackSpec's |
| SdCard.SDPlayer.Announce | src/sdcard.cpp:389-413 | the calls are the announcement's: clear, the album or track files, play |
| SdCard.SDPlayer.AnnounceAndPlay | src/sdcard.cpp:366-369 | the new player and the calls are those of AnnounceAndPlaySpec |
| SdCard.SDPlayer.Previous | src/sdcard.cpp:305-339 | the new player, result and calls are those of PreviousSpec |
| SdCard.SDPlayer.Next | src/sdcard.cpp:341-373 | the new player, result and calls are those of NextSpec |
| SdCard.SDPlayer.Pause | src/sdcard.cpp:375-387 | the new player and the calls are those of PauseSpec |
| SdCard.SDPlayer.Reset | src/sdcard.cpp:415-419 | the new player and the calls are those of ResetSpec |
| SdCard.SDPlayer.SetState | src/sdcard.cpp:425-431 | the new player and the calls are those of SetStateSpec |
| SdCard.SDPlayer.Leave | src/sdcard.cpp:448-457 | the new player, result and calls are those of LeaveSpec |
| SdCard.SDPlayer.PlaylistEnd | src/sdcard.cpp:464-471 | the new player and the calls are those of PlaylistEndSpec |
| Webradio.SkipLine | src/webradio.cpp:46-52 | skipping a line moves forward and stays within the data |
| Webradio.AnnounceFile | src/webradio.cpp:140-153 | the announcement name fits the 128-byte buffer |
| Webradio.StationsStep | src/webradio.cpp:30-53 | one parsing round: a line that starts with "http:" adds its offset; the parse stops at 25 stations, otherwise it skips the line and goes on |
| Webradio.StationsBounded | src/webradio.cpp:40-45 | parsing only appends station offsets and never records more than 25 |
| Webradio.Stations | src/webradio.cpp:25-53 | the parser keeps what it has recorded and records at most 25 stations |
| Webradio.StationsOf | src/webradio.cpp:14-55 | the constructor's stations: at most 25 offsets, each at a line header "http:" |
| Webradio.UrlAt | src/webradio.cpp:79-83 | the URL read at a station offset: at most 255 bytes, no newline, the bytes of the file from that offset; nothing outside the file |
| Webradio.StationLineAtHeader | src/webradio.cpp:30-40 | a header read of "http" records an offset at which "http:" starts |
| Webradio.StationsPointAtHeaders | src/webradio.cpp:27-53 | every recorded offset points at "http:" in the file |
| Webradio.SkipLineStops | src/webradio.cpp:46-51 | a line shorter than the read limit whose length is not the repeat count is skipped with its newline |
| Webradio.SkipLineRepeats | src/webradio.cpp:46-51 | a line whose length is the repeat count makes the skip loop swallow the next line as well |
| Webradio.HttpHeader | src/webradio.cpp:30-31 | a line starting "http:" reads the header "http" and leaves the position at the URL |
| Webradio.StationLine | src/webradio.cpp:30-51 | a station line shorter than the limit reads as "http" and is skipped to the next line |
| Webradio.LongLineSwallowsNext | src/webradio.cpp:46-51 | as written, a station line whose URL has 128 bytes after `http:` (a 133-byte URL) hides the station on the next line |
| Webradio.LongLineKeepsNextIntended | src/webradio.cpp:46-51 | with the loop repeating on a full 255-byte read, both stations are found |
| Webradio.NoFileNoStations | src/webradio.cpp:20-27 | without /webradio.txt there are no stations |
| Webradio.PlayOutOfRangeIsNoop | src/webradio.cpp:69 | play of an index outside [0, numRadioStations) changes nothing and makes no calls |
| Webradio.PlaySpec | src/webradio.cpp:68-96 | play keeps the stations, makes a station in range current, and calls the playlist exactly when the index is in range and /webradio.txt exists |
| Webradio.PlayCallsAreStream | src/webradio.cpp:68-96 | play selects the station and makes the stream calls for the URL read at its offset |
| Webradio.StreamReplacesQueue | src/webradio.cpp:87-95 | outside Stopped, play leaves exactly the URL and then "/system/connection_failed.mp3" queued, in Reset |
| Webradio.StreamAppendsWhenStopped | src/webradio.cpp:87-95 | when Stopped, play appends the URL and the fallback to what is queued and starts playing |
| Webradio.UrlFits | src/webradio.cpp:80-83 | the URL read for a station fits in 255 bytes |
| Webradio.AnnounceQueuesOne | src/webradio.cpp:154-156 | an announcement leaves exactly one file queued, in Reset |
| Webradio.AnnounceCalls | src/webradio.cpp:140-157 | an announcement clears the playlist, queues the current station's file and plays, whatever index is passed |
| Webradio.AnnounceOwnFile | src/webradio.cpp:143-147 | as written, the name is "/webradio/" and digits that start with 0 exactly when the index is below 10 |
| Webradio.AnnouncedStateIsReset | src/webradio.cpp:103-112 | after the navigation calls and an announcement the playlist is in Reset, whatever its state before |
| Webradio.PlayingBlocksNavigation | src/webradio.cpp:99-118 | previous and next do nothing while the playlist is Playing |
| Webradio.NavigationWraps | src/webradio.cpp:107-126 | next moves to (i + 1) mod n and previous to (i - 1) mod n |
| Webradio.PreviousSpec | src/webradio.cpp:99-113 | previous keeps the stations and, unless playing, keeps the current index in range and makes the unpause calls and then the new station's announcement |
| Webradio.NextSpec | src/webradio.cpp:115-128 | next keeps the stations and, unless playing, keeps the current index in range and makes the unpause calls and then the new station's announcement |
| Webradio.NextThenPreviousRestores | src/webradio.cpp:99-128 | next then previous, and previous then next, restore the player |
| Webradio.PauseWhilePlayingStops | src/webradio.cpp:130-135 | pause while playing or paused leaves only "/system/stopped.mp3" queued and keeps the player |
| Webradio.PauseTogglesStream | src/webradio.cpp:130-138 | pause from Stopped plays the current station; pause again then plays the stopped notice |
| Webradio.PauseSpec | src/webradio.cpp:130-138 | pause while playing or paused keeps the player and queues only the stopped notice; otherwise it plays the current station, making calls exactly when the station file exists |
| Webradio.ResetAnnouncesFirstStation | src/webradio.cpp:159-162 | reset selects station 0 and announces "/webradio/01.mp3", or "/system/1.mp3" when that is absent |
| Webradio.ResetSpec | src/webradio.cpp:159-162 | reset makes station 0 current, keeps the stations, and announces station 0 |
| Webradio.TenthStationHasThreeDigits | src/webradio.cpp:143-147 | as written, station index 9 announces "/webradio/010.mp3" |
| Webradio.IntendedAnnounceFileHasTwoDigits | src/webradio.cpp:143-147 | with the intended test, stations 1 to 99 announce "/webradio/NN.mp3" with two digits that read back as the station number |
| Webradio.AnnounceOwnFileIntended | src/webradio.cpp:143-147 | with the intended test, the digits start with 0 exactly when the station number is below 10 |
| Webradio.ParseStations | src/webradio.cpp:25-53 | the parser loop fills the offset array with exactly the offsets Stations describes |
| Webradio.WebradioPlayer.constructor | src/webradio.cpp:14-55 | the player holds the stations parsed from /webradio.txt and current item 0 |
| Webradio.WebradioPlayer.Play | src/webradio.cpp:68-96 | the new player and the calls are those of PlaySpec |
| Webradio.WebradioPlayer.Announce | src/webradio.cpp:140-157 | the calls are the announcement of the current item: clear, one file, play |
| Webradio.WebradioPlayer.Previous | src/webradio.cpp:99-113 | the new player and the calls are those of PreviousSpec |
| Webradio.WebradioPlayer.Next | src/webradio.cpp:115-128 | the new player and the calls are those of NextSpec |
| Webradio.WebradioPlayer.Pause | src/webradio.cpp:130-138 | the new player and the calls are those of PauseSpec |
| Webradio.WebradioPlayer.Reset | src/webradio.cpp:159-162 | the new player and the calls are those of ResetSpec |

Three behaviours of the code that the lemmas above make explicit:

- **Capacity.** A ring of 3 slots accepts "a", "b", "c" and "d" and then
  holds only "d" (`Playlist.CapacityThreeScenario`).
- **Skip without a pipeline.** The next tick drops the head of the queue
  (`Playlist.SkipWithoutPipelineDropsHead`).
- **End callback.** It fires once per registration and is cleared when it
  fires (`Playlist.DrainFiresOnce`).

## Left out

- Concurrency and timing: the FreeRTOS mutex and `vTaskDelay`. A lock that cannot be taken within its timeout is the `lockAcquired` parameter. The players' calls assume every lock is taken (`Playlist.ApplyCall`).
- The audio library objects (sources, buffer, ID3 reader, MP3 decoder, output): each is a flag for whether it exists. One decoder step is the `StepOutcome` parameter. Failed allocations (`new` returning NULL) are not modelled.
- Serial logging, `metadataCallback`, `statusCallback`, the preallocated stream buffer and all malloc/strdup/free ownership. Memory is not modelled.
- The SD filesystem: it is an in-memory value of listings and file contents. Open, close and seek on a real card are not modelled. A seek past the end of the file reads nothing (`Webradio.UrlAt`).
- Arduino `readBytesUntil`'s timeout: data is never late.
- Bytes and characters: a `string` here is the byte sequence of a C string, one Dafny `char` per byte. Every length (the 256-byte name limit of `addFilename`, the `snprintf` cuts at 255 and 127, the `readBytesUntil` limits) counts bytes. A UTF-8 name such as 200 times "é" is 400 bytes, so it is 400 elements here. No encoding or decoding is modelled.
- `makeMenu`, the `sdPrev`/`sdNext`/`sdPlayPause`/`sdEnter` and `webPrev`/`webNext`/`webPlayPause` wrappers, and `getContext`. They only pass the call to the player.
- `activateWifi`/`deactivateWifi`: WiFi I/O with a busy wait. So the web-radio menu's enter and leave callbacks are not modelled.
- main.cpp, bluetooth.cpp and the equaliser filter (hardware set-up, Bluetooth, floating-point DSP).
- The integer widths of the source are not modelled: `int8_t` album indices, `int16_t` track indices and table entries, and `size_t` offsets. The tables are limited by `SdCard.CardOk` instead.
- `SdCard.CardOk`: the source writes `shuffle` past MAX_TRACKS and albums past MAX_ALBUMS without a check. The model requires the card to fit instead of modelling the overflow.
- Uninitialised bytes of `switchAlbum`'s stack buffer are taken as NUL (`SdCard.PlaylistFile`).
- A NULL album path printed with `%s` is taken to print "(null)", as glibc does (`SdCard.PathText`); other C libraries may differ.
- A suffix test on a name shorter than the suffix is undefined in C; such a name is taken not to match (`Util.EndsWithIgnoreCase`).
- The classes use the as-written behaviour. The corrected definitions below are separate functions with their own lemmas.
- Menu items are a `seq` field that `setItems` reassigns, not malloc'd arrays. A submenu shared by two items, or a menu that is its own ancestor, is excluded by the tree invariant `Menus.Menu.Valid`.
- Menus.Menu.LeaveTarget: states only that the result is a standard menu with items inside the tree. `Menus.Menu.LeaveItem` states the rest.
- SdCard.Switch, SdCard.PlaySpec, SdCard.AnnounceAndPlaySpec, SdCard.PreviousSpec, SdCard.NextSpec, SdCard.NextIntended, SdCard.PauseSpec, SdCard.PlaylistEndSpec, SdCard.PlaylistEndIntended: their own contracts state only that the player stays within its tables. The lemmas in the table above state their branches: play (`SdCard.PlayQueuesTrack`, `SdCard.PlayOutOfRangeEnqueuesNothing`, `SdCard.PlayCurrentKeepsPosition`, `SdCard.IdentityTablePlaysInOrder`), switch without a playlist file (`SdCard.SwitchWithoutPlaylistFile`), menu browsing (`SdCard.MenuBrowsingKeepsTable`, `SdCard.MenuNextThenPrevious`), next and previous in playback (`SdCard.NextInPlaybackRestartsAlbum`, `SdCard.PreviousInPlayback`), pause (`SdCard.PauseInPlaybackToggles`, `SdCard.PauseFromMenuStartsAlbum`) and the end of a track (`SdCard.EndOfTrackAlwaysStops`, `SdCard.EndOfTrackPlaysNextIntended`). A case none of them covers is promised only that the player stays within its tables.
- Webradio.AnnounceFile: its contract states only that the name fits the buffer. The names are stated by `Webradio.ResetAnnouncesFirstStation`, `Webradio.TenthStationHasThreeDigits` and `Webradio.IntendedAnnounceFileHasTwoDigits`.
- SdCard.ReadLine: its own contract states only the buffer size and progress; what the buffer holds is stated by `SdCard.ReadLineIsLastLine`, because a contract on the recursive function itself makes the proofs that use it too expensive.
- SdCard.Filter: its own contract states only that the filter never adds entries. Which entries survive is stated by `SdCard.FilterMembers`; a quantified contract on Filter itself makes every proof that uses it too expensive.
- Menus.Menu.constructor: the source's `Menu()` (src/menu.cpp:60-63) sets only numItems and state and leaves selectedItem, the item array and the four callbacks uninitialised. The model starts them at 0, empty and NULL.
- Menus.Menu.Button: the source's `ButtonMenu` constructor (src/menu.cpp:267-275) sets the press callbacks, numItems, selectedItem and state, and leaves the display, audio, enter and leave callbacks uninitialised. The model starts them at NULL.
- The headers do not match the implementation files. src/menu.h:7-10 has no `StateUnknown`, which src/menu.cpp:99 and 231 assign. src/menu.h:21-22 declares `Menu(MenuItem **items, void *context)`, while src/menu.cpp:60 defines `Menu()`. src/menu.h:62-63 declares `ButtonMenu` callbacks that take a `Menu *`, a `bool` leave callback and a context, and src/menu.h:26-27 and 68-71 declare `getItem`, `indexOfItem` and `leaveItem` overrides; src/menu.cpp:267-305 defines a constructor with three argument-less callbacks and none of those overrides. src/playlist.h:7-44 has no Reset state and no end callback. The model follows the .cpp files.
- Because of that mismatch, the callers do not match the menu code either: src/sdcard.cpp:54 passes `sdLeave` and the player as context, and src/main.cpp:157 calls `new Menu(items)`. The menu model has no context and no veto on leaving: a button menu is always left through `Menus.Menu.LeaveItem`. `SdCard.LeaveSpec` and `SdCard.SDPlayer.Leave` model `sdLeave` on its own; no menu operation calls them.
- What a fired end callback does to the playlist while it runs is the `reaction` parameter of `Playlist.Fetch`, `Playlist.Tick` and the object's `Loop`; the model does not look the callback up from its handle. For `sdPlaylistEnd` the reaction is the call trace of `SdCard.PlaylistEndSpec` or `SdCard.PlaylistEndIntended` (`SdCard.ReRegistrationLosesPlayer`).

## Findings

| source | as written | input that shows it | evidently intended | confidence | as-written member | corrected member |
|---|---|---|---|---|---|---|
| src/playlist.cpp:73 | full test `writeMarker == readMarker - 1` does not wrap | capacity 3, add "a", "b", "c", "d": all accepted, only "d" left | the slot after the write marker is the read marker | not executed | Playlist.FullTestMissesWrap, Playlist.CapacityThreeScenario | Playlist.EnqueueIntended, Playlist.CapacityThreeIntended, Playlist.FullIntendedIsCount |
| src/playlist.cpp:163 | `state = PlaybackStatePaused` assigns in the condition, so skip always marks Skipping | skip from Stopped with two items queued: playback starts and one item is consumed | only a playing or paused item is skipped | not executed | Playlist.Playlist.Skip, Playlist.SkipFromStoppedPlaysSecond | Playlist.AfterSkipIntended, Playlist.SkipIntendedFromStoppedIsNoop |
| src/sdcard.cpp:139 | the index counter starts at -1, and src/sdcard.cpp:202 keeps only results above 0 | tracks a, b, c and the playlist line "C.MP3": index 1 (b.mp3) is kept | the position of the match | not executed | SdCard.IndexAsWrittenIsShifted, SdCard.ThirdTrackPlaysSecond | SdCard.IntendedIndexRoundTrip, SdCard.IntendedIndexNamesSearch |
| src/sdcard.cpp:195-199 | the line buffer is never terminated after a read | album "/a" with album.m3u holding "x.mp3\n": looked up as "x.mp3bum.m3u" | terminate the buffer at the number of bytes read | not executed | SdCard.ShortLineKeepsStaleBytes | SdCard.ReadLineIntended, SdCard.IntendedLineIsLookedUpAsRead |
| src/sdcard.cpp:358-364 | next in playback sets the track to 0 or to the last one whatever the current track | any track in playback ending: the "stopped" notice, the album stops after one track | step to the next track and only past the last one wrap or fail; for the next track after that to play too, the end context must also be cleared before the callback (the src/playlist.cpp:279 row) | not executed | SdCard.EndOfTrackAlwaysStops, SdCard.NextInPlaybackRestartsAlbum | SdCard.NextIntended, SdCard.EndOfTrackPlaysNextIntended |
| src/webradio.cpp:51 | the skip loop repeats on 128 bytes although each read takes up to 255 | a station line whose URL has 128 bytes after `http:` (a 133-byte URL), followed by a second station line: only one station | repeat on a full 255-byte read | not executed | Webradio.LongLineSwallowsNext | Webradio.LongLineKeepsNextIntended |
| src/webradio.cpp:143 | zero padding tests `currentItem < 10` rather than the station number | station index 9: "/webradio/010.mp3" | pad while the station number is below 10 | not executed | Webradio.TenthStationHasThreeDigits | Webradio.AnnounceOwnFileIntended, Webradio.IntendedAnnounceFileHasTwoDigits |
| src/playlist.cpp:279 | the end context is cleared after the callback returns, so a callback that registers itself again loses its new context | sdPlaylistEnd with the intended next, while a track with a successor ends: it registers itself with the player, and the tick leaves the callback registered with a NULL context | clear the context together with the callback, before the call | not executed | Playlist.ReRegisteredContextIsLost, SdCard.ReRegistrationLosesPlayer | Playlist.TickIntended, Playlist.IntendedAgreesWithoutRegistration |
