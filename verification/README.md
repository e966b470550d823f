# A Dafny model of a remote-desktop client and its fleet registration

The project models the parts of the client whose guarantees appear only over whole runs: the audio jitter buffer,
the tracking of keys held on the remote side, clipboard synchronisation as a protocol between any number of machines,
the self-registration of a fleet of devices in one shared address book, the remembered login password, session
options, the session registry, the software-rendering handshake, LAN discovery, the TLS fallback of HTTP requests, the
online query, decoder health and the settings carried in an installer's file name.

Code that updates fields in place is a class whose methods are proved against a function of the old state; what the
code promises is then proved about those functions, over every run and every interleaving, as lemmas. Each module has
the same shape: specification functions, the imperative form, the state machine, the theorems. `Common.dfy` holds what
the modules share.

Where a property fails, the code is kept as it is, an if-and-only-if says which steps or inputs break it, and where it
takes a whole run to see the failure a lemma gives one:

- Measured in time the bound on dropped audio holds across resizes (`DropBounded`); counted in samples it fails exactly
  for rates that overtake the recorded one (`SampleBoundExactly`, `WhichRatesOvertake`), because a resize keeps the
  histogram.
- The grab loop and the sweep take their locks one at a time, so a key can be held by the peer and tracked by nobody:
  when it is filed between copying and clearing the table (`PressBetweenTheLocksIsLost`), and when a sweep passes between
  filing and sending it (`PressSentAfterTheSweepIsLost`). `NextCoversExactly` names every step that loses a key;
  `RunKeepsTracked` is a sufficient discipline.
- The flag of the exit chord is not tied to a key, contrary to the comment at client/upstream/src/keyboard.rs:396-400, so
  a release of a tracked key can be blocked (`BlockedChordLeavesControlHeld`); the peer holds only pressed keys exactly
  when none is (`PeerHoldsOnlyPressedExactly`).
- Toggling an option that view-only overrides puts the peer out of step, except in the cases of `Faithful`
  (`SessionInStepExactly`).
- A shared password is stored after a side switch (`SideSwitchStoresShared`) and after a change of salt
  (`SaltChangeStoresShared`), and after nothing else (`SharedStaysOffDiskExactly`). `SaltChangeExactly` says when a new
  salt breaks the rule of sources.
- A failed fetch wipes the address book (`FailedFetchWipes`) and overlapping first boots lose a device
  (`OverlappingFirstBoots`); `PostKeepsExactly` and `FinishLosesExactly` say which posts lose a row, and sequential
  registrations heal either (`SequentialHeals`).
- A session that joins a peer between the two locks of its removal is dropped (`JoiningADyingPeerIsLost`,
  `NextKeepsSoundExactly`, `JoinSurvivesExactly`). Each report of the number of peers travels on a connection of its own,
  so an older one can arrive last (`OvertakenReportStaysWrong`, `RunKeepsFreshExactly`).
- A frame that nobody was notified of is withdrawn even if a reader has it (`WithdrawalCorruptsReader`,
  `NextKeepsStableExactly`); a reader that waits for its notification is safe (`ToldReaderNeverLosesItsFrame`).
- Two requests that store their result at once can leave a TLS pair in the cache that never succeeded (`TornPair`,
  `NextPairsExactly`).
- The file-name parser slices the name at an offset of its lower-cased form, so characters whose lower case has another
  number of bytes lose the settings or make it panic (`DottedIIsHarmful`, `SharpSPanics`, `RoundTripsExactly`).

## Model

| member | source | states |
|---|---|---|
| `AudioBuffer.AudioBuffer.Resize` | client/upstream/src/client.rs:1214-1222 | a changed capacity empties the ring and sets capacity and rate; the histogram stays |
| `AudioBuffer.ScanHistogram` | client/upstream/src/client.rs:1247-1269 | the in-place pass finds the empty prefix and the least index of the largest bucket of the histogram as it was, and leaves all thirty buckets empty |
| `AudioBuffer.PeakMeaning` | client/upstream/src/client.rs:1249-1262 | the peak is the least index of the largest bucket among 1..29, or 0 if they are all empty: bucket 0 never wins |
| `AudioBuffer.EmptyPrefixMeaning` | client/upstream/src/client.rs:1248-1254 | the first water mark is the length of the empty prefix |
| `AudioBuffer.AudioBuffer.TryShrink` | client/upstream/src/client.rs:1224-1284 | records the occupancy; before the first check and until twelve seconds after the last it leaves the ring alone; a due check clears all buckets, drops what the water marks decide and starts a new period |
| `AudioBuffer.AudioBuffer.AppendPcm2` | client/upstream/src/client.rs:1289-1303 | both branches keep exactly the newest `capacity` samples of old followed by new, and return the resulting occupancy |
| `AudioBuffer.AppendKeepsNewest` | client/upstream/src/client.rs:1289-1303 | what is left is the newest part of old followed by new, as long as there is room for; nothing else changes |
| `AudioBuffer.AudioBuffer.AppendPcm` | client/upstream/src/client.rs:1308-1311 | an append is followed by a shrink with the occupancy it left, so the two laws below hold of its runs |
| `AudioBuffer.AudioBuffer.PopSlice` | client/upstream/src/client.rs:1484-1517 | the consumer takes the oldest samples, as many as there are |
| `AudioBuffer.RunKeepsConsistent` | client/upstream/src/client.rs:1193-1284 | in every run capacity is three seconds of samples, the ring is within it, and the histogram is the tally of the occupancies recorded since it was cleared |
| `AudioBuffer.DropBounded` | client/upstream/src/client.rs:1264-1283 | a drop is even, leaves more than twice as much, and in time is at most two thirds of every occupancy recorded since the last clear (one sample aside), resizes included |
| `AudioBuffer.DropNeedsBacklog` | client/upstream/src/client.rs:1265-1275 | samples are dropped only on a due check whose most frequent occupancy, over all buckets, was at least 600 ms and that recorded nothing below 200 ms, and at most a quarter of that level |
| `AudioBuffer.DropInNumbers` | client/upstream/src/client.rs:1247-1284 | in every consistent state the drop of a due check, in numbers read off the recorded occupancies: the lower of the peak and four times two thirds of the empty prefix, in fortieths of a second and whole frames, if the peak is at least 600 ms and more than three times as much is buffered, and nothing otherwise |
| `AudioBuffer.EmptyingsAreApart` | client/upstream/src/client.rs:1240-1246 | over runs, any two shrinks that empty the histogram are at least twelve seconds apart |
| `AudioBuffer.EarlyShrinkOnlyRecords` | client/upstream/src/client.rs:1240-1246 | over runs, a shrink less than twelve seconds after such a one leaves ring and check time alone and adds one to one bucket |
| `AudioBuffer.NextEmptyingExactly` | client/upstream/src/client.rs:1238-1246 | from the start, the first shrink never empties the histogram, and after it or after an emptying the next shrink empties if and only if twelve seconds have passed |
| `AudioBuffer.RingIsNewestPart` | client/upstream/src/client.rs:1193-1303 | first in, first out: in every run the ring is the newest part of the stream of all samples appended since the last change of capacity |
| `AudioBuffer.SampleBoundExactly` | client/upstream/src/client.rs:1214-1311 | counted in samples, over all runs in which every shrink follows its append, resizes included, a drop is at most two thirds of every occupancy recorded at a rate if and only if the current rate does not overtake it, which is a finite computation on the two rates |
| `AudioBuffer.WhichRatesOvertake` | client/upstream/src/client.rs:1264-1275 | a rate that did not grow never overtakes; one that grew by more than four samples a second always does |
| `AudioBuffer.StereoPhase` | client/upstream/src/client.rs:1214-1303 | two-channel runs of append, shrink, resize and pop keep the ring in whole frames with a left sample at its head |
| `KeyboardTracker.Keyboard.ProcessEvent` | client/upstream/src/keyboard.rs:131-140 | a long press of a modifier is ignored; otherwise flag, table and peer change together, and exactly one key event is sent if the key has a code |
| `KeyboardTracker.Keyboard.EventToKeyEvents` | client/upstream/src/keyboard.rs:725-794 | a press is filed in the table and raises the flag, a release undoes both; Map mode sends at most one key event |
| `KeyboardTracker.Keyboard.ReleaseRemoteKeys` | client/upstream/src/keyboard.rs:543-559 | in any iteration order, with the extra stroke for Alt, the peer holds nothing, the table is empty and no flag is raised |
| `KeyboardTracker.Keyboard.ShouldBlockRelativeMouseShortcut` | client/upstream/src/keyboard.rs:382-421 | which events are blocked, case by case over platform and key, and what becomes of the flag of the exit shortcut |
| `KeyboardTracker.BlocksExactly` | client/upstream/src/keyboard.rs:300-421 | an event is blocked if and only if the hook is on and it is the release of a watched key after a blocked press, or completes the chord of its platform in relative mode where the session allows it |
| `KeyboardTracker.Keyboard.GrabEvent` | client/upstream/src/keyboard.rs:423-515 | what the grab loop does with one key event on each platform, and exactly which events never reach the peer |
| `KeyboardTracker.Keyboard.SetRelativeMouseModeState` | client/upstream/src/keyboard.rs:54-60 | leaving the mode clears the shortcut flag |
| `KeyboardTracker.Keyboard.ChangeGrabStatusWait` | client/upstream/src/keyboard.rs:99-129 | losing the grab releases everything and unhooks, unless the hook library is off |
| `KeyboardTracker.EventAlone` | client/upstream/src/keyboard.rs:423-515 | the lock-by-lock system refines the undisturbed grab loop: a key event without the sweep in between has the same effect |
| `KeyboardTracker.SweepAlone` | client/upstream/src/keyboard.rs:543-559 | a whole sweep without the grab loop in between, in any order of the keys, ends with nothing held, nothing tracked, no flag raised and the hook off |
| `KeyboardTracker.NextCoversExactly` | client/upstream/src/keyboard.rs:131-140 | with both threads interleaved lock by lock, a step keeps everything the peer holds and every raised flag accounted for (by the table, the sweep or an event in progress) exactly when it is safe: clearing only what was copied, sending a press only while its code is still accounted for, unfiling a key only while its flag is down or still to be handled |
| `KeyboardTracker.RunCoversExactly` | client/upstream/src/keyboard.rs:131-140 | whole runs: accounted for at every point if and only if every step is safe |
| `KeyboardTracker.RunKeepsTracked` | client/upstream/src/keyboard.rs:528-559 | if the threads never work on the same key at once and nothing new is filed before the table is cleared, every run keeps the peer inside the table |
| `KeyboardTracker.ClearIsSafeExactly` | client/upstream/src/keyboard.rs:545-546 | with no event in progress, clearing the table is safe exactly when every tracked key with a code or a raised flag was copied |
| `KeyboardTracker.SweepUnderTraffic` | client/upstream/src/keyboard.rs:543-559 | once a sweep is over, the peer holds only keys that went down after the table was cleared or were in the grab loop's hand then |
| `KeyboardTracker.EventsKeepExact` | client/upstream/src/keyboard.rs:743-764 | if codes are distinct, any sequence of events, blocked ones included, leaves the peer holding exactly the tracked keys |
| `KeyboardTracker.PressBetweenTheLocksIsLost` | client/upstream/src/keyboard.rs:545-546 | a run in which a key is held by the peer and tracked by nobody |
| `KeyboardTracker.PressSentAfterTheSweepIsLost` | client/upstream/src/keyboard.rs:131-140 | a run in which a whole sweep passes between filing a press and sending it; the key is held and tracked by nobody |
| `KeyboardTracker.PeerHoldsOnlyPressedExactly` | client/upstream/src/keyboard.rs:382-421 | over whole runs of key events and mode changes, the peer holds at every point only keys the user holds if and only if no release of a tracked key was blocked |
| `KeyboardTracker.ReleaseIsLostExactly` | client/upstream/src/keyboard.rs:396-400 | a release leaves its code held exactly when the key was tracked and the release is blocked |
| `KeyboardTracker.BlockedChordLeavesControlHeld` | client/upstream/src/keyboard.rs:396-416 | from every state with Control held in relative mode, the blocked press of Alt makes the release of Control the one that is blocked |
| `KeyboardTracker.CommandGStaysHere` | client/upstream/src/keyboard.rs:382-421 | on macOS press and release of the chord of Command with G both stay here, and the flag of the shortcut is down again |
| `ClipboardSync.ClipboardContext.GetFormatsFilter` | client/upstream/src/clipboard.rs:328-357 | an owner format with one of its two low bits set yields nothing unless forced; otherwise the clipboard without empty texts and without the owner format, item by item in order |
| `ClipboardSync.ClipboardContext.Get` | client/upstream/src/clipboard.rs:315-326 | contents with file lists are left to the file service; any other free clipboard is read in full |
| `ClipboardSync.ClipboardContext.CheckClipboard` | client/upstream/src/clipboard.rs:52-76 | a clipboard without files and owner is sent and cached exactly as it is but for empty texts and the owner format; nothing is sent if nothing else is there |
| `ClipboardSync.ClipboardContext.UpdateClipboard` | client/upstream/src/clipboard.rs:199-232 | a content from the network is set with the one-byte owner mark of the side appended |
| `ClipboardSync.VisibleConcat` | client/upstream/src/clipboard.rs:348-356 | filtering keeps the order of the content |
| `ClipboardSync.SendsAreBounded` | client/upstream/src/clipboard.rs:208-232 | no ping-pong: once user copies stop, in any interleaving, the checks that send are at most the notifications pending on machines without an owner mark |
| `ClipboardSync.OneCopyIsSentOnce` | client/upstream/src/clipboard.rs:52-76 | where no notification is pending, one copy is sent at most once, by the machine it was copied on and item by item as it was copied, in every continuation |
| `ClipboardSync.BoundIsAttained` | client/upstream/src/clipboard.rs:328-357 | from every state some schedule sends exactly as often as the sharper bound allows |
| `ClipboardSync.NetworkFallsSilent` | client/upstream/src/clipboard.rs:199-232 | without user copies every schedule of checks, deliveries and losses is finite, with an explicit bound |
| `ClipboardSync.FreeCopyReachesEveryPeer` | client/upstream/src/clipboard.rs:52-76 | a readable check of a free copy puts it, without empty texts and owner format, in flight to every peer; of any other clipboard it sends nothing |
| `ClipboardSync.DeliveredContentIsMarked` | client/upstream/src/clipboard.rs:199-232 | a delivery sets the content with the mark behind it on its receiver alone, which will not send it on |
| `ClipboardSync.RunKeepsHonest` | client/upstream/src/clipboard.rs:508-524 | in every run, whatever a machine sends was copied by its own user |
| `ClipboardSync.EverySendWasCopied` | client/upstream/src/clipboard.rs:508-524 | hence from the start every content ever sent was copied by its sender's user |
| `FleetSync.NormalizePeer` | client/scripts/inject-admin-pw.py:236-250 | filling the map gives exactly the eight posted fields, each as it was or with its default |
| `FleetSync.NormalizedIdempotent` | client/scripts/inject-admin-pw.py:236-250 | projecting twice is projecting once |
| `FleetSync.SplitRows` | client/scripts/inject-admin-pw.py:262-269 | other rows are projected in order; the last own row is the one that decides |
| `FleetSync.Server.FleetRegisterCall` | client/scripts/inject-admin-pw.py:252-343 | the book is left alone and the call succeeds if the last fetched row with the device id has both its password and its alias; otherwise, if the server accepts, the book becomes the other rows, projected, then the own row spelled out, with the fetched tags and colours |
| `FleetSync.PostContents` | client/scripts/inject-admin-pw.py:308-325 | a post leaves exactly one own row, in sync, all other rows in order up to the projection, and returned tags and colours |
| `FleetSync.CallLeavesTheRow` | client/scripts/inject-admin-pw.py:252-343 | read off the JSON strings: after a fetch and an accepted call the last row with the id has the device password and alias; the book is untouched exactly when the fetched one had both, and otherwise the row has host name and platform, too |
| `FleetSync.InSyncMeansStands` | client/scripts/inject-admin-pw.py:282-306 | in sync means that the last row with the id has the password and the alias |
| `FleetSync.RegistrationIsIdempotent` | client/scripts/inject-admin-pw.py:282-306 | after a successful registration a second one posts nothing |
| `FleetSync.PostKeepsExactly` | client/scripts/inject-admin-pw.py:257-280 | another device's post keeps a row in sync exactly when its snapshot had it in sync |
| `FleetSync.RowIsNeverLost` | client/scripts/inject-admin-pw.py:252-335 | under any interleaving of successful fetches and posts, a row in sync on the server and in every live snapshot stays so |
| `FleetSync.FinishLosesExactly` | client/scripts/inject-admin-pw.py:287-335 | which posts lose a registered row |
| `FleetSync.SequentialHeals` | client/scripts/inject-admin-pw.py:252-335 | from any book, registrations that do not overlap leave every participating device with its password and alias in the last row with its id |
| `FleetSync.FailedFetchWipes` | client/scripts/inject-admin-pw.py:253-280 | after a failed fetch the post removes every other device |
| `FleetSync.OverlappingFirstBoots` | client/scripts/inject-admin-pw.py:213-219 | the race of two first boots loses the earlier device |
| `LoginPassword.LoginConfigHandler.Initialize` | client/upstream/src/client.rs:1824-1870 | a token brings back password and source; remembering follows the stored password |
| `LoginPassword.LoginConfigHandler.HandleHash` | client/upstream/src/client.rs:3386-3460 | the order in which passwords are tried: shared, remembered, preset, stored, personal, default; and the source each one leaves |
| `LoginPassword.LoginConfigHandler.HandleLoginError` | client/upstream/src/client.rs:3332-3345 | a missing or wrong password is forgotten |
| `LoginPassword.LoginConfigHandler.HandleLoginFromUi` | client/upstream/src/client.rs:3552-3578 | a typed password has no source; an empty one falls back to the remembered or stored one |
| `LoginPassword.LoginConfigHandler.HandlePeerInfo` | client/upstream/src/client.rs:2503-2566 | with remembering on, a non-empty password that is not shared under the salt is stored; with it off, one that the personal address book dictates is, and otherwise what was stored is forgotten; what remains stored is pushed exactly if the password is neither shared nor personal |
| `LoginPassword.ForgottenStaysForgotten` | client/upstream/src/client.rs:2503-2566 | over runs: after an accepted login with remembering off and no personal password nothing is left on disk nor pushed, until another login is accepted |
| `LoginPassword.TypedPasswordIsStoredIfAsked` | client/upstream/src/client.rs:3552-3578 | over runs: after an accepted login a typed password is on disk and pushed if the user asked to remember it, and otherwise nothing is, whatever was stored before |
| `LoginPassword.ReconnectKeepsPassword` | client/upstream/src/client.rs:2754-2764 | when a reconnect with a token goes on with the very password and source of the connection that made it |
| `LoginPassword.RunKeepsProvenance` | client/upstream/src/client.rs:1685-1716 | for a fixed salt, in every run the remembered password is empty, without source, or what its source dictates; tokens too |
| `LoginPassword.SharedSourceIsNeverSaved` | client/upstream/src/client.rs:2518-2536 | hence a password whose source is shared is neither stored nor published |
| `LoginPassword.SaltChangeExactly` | client/upstream/src/client.rs:3393-3430 | when a hash message with another salt keeps the rule |
| `LoginPassword.NextKeepsCleanExactly` | client/upstream/src/client.rs:2503-2538 | by true origin and for any salts, every step keeps shared passwords declared and off the disk except exactly two: a side switch with one remembered, and an accepted login under a salt that no longer explains it |
| `LoginPassword.SharedStaysOffDiskExactly` | client/upstream/src/client.rs:2503-2538 | whole runs, reconnects and salt changes included: shared passwords stay declared and off the disk at every point if and only if neither of the two steps occurs |
| `LoginPassword.NewHandlerKeepsSharedOffDisk` | client/upstream/src/client.rs:1824-1870 | the same from a new handler |
| `LoginPassword.SharedStaysOffDisk` | client/upstream/src/client.rs:2518-2536 | while the peer keeps its salt, only a side switch can put a shared password on disk |
| `LoginPassword.SideSwitchStoresShared` | client/upstream/src/client.rs:3396-3405 | the run that stores it |
| `LoginPassword.SaltChangeStoresShared` | client/upstream/src/client.rs:3386-3460 | the run that stores it after a change of salt, without any side switch |
| `LoginOptions.LoginGives` | client/upstream/src/client.rs:2202-2274 | what a fresh login with the full message makes of each flag of the peer |
| `LoginOptions.ToggleFlips` | client/upstream/src/client.rs:2042-2092 | a toggle of a flag negates that flag of the configuration and no other |
| `LoginOptions.ViewTogglesFlip` | client/upstream/src/client.rs:2109-2158 | leaving view-only also hides the own cursor; privacy mode and input blocking leave the configuration alone |
| `LoginOptions.OtherOptionIsLocal` | client/upstream/src/client.rs:2159-2172 | any other option is toggled between absent and Y without a message |
| `LoginOptions.InputBlockedByLatest` | client/upstream/src/client.rs:2117-2120 | over whole sessions, the input of the peer is blocked exactly if the latest of the two input toggles was the one that blocks |
| `LoginOptions.PrivacyAndTerminal` | client/upstream/src/client.rs:2042-2187 | over whole sessions, what the peer is told about privacy mode is the negated configuration, and about the terminal the configuration itself |
| `LoginOptions.ToggleInStepExactly` | client/upstream/src/client.rs:2042-2187 | one toggle keeps the peer as a fresh login would make it exactly under `Faithful`, a condition on the configuration before |
| `LoginOptions.SessionInStepExactly` | client/upstream/src/client.rs:2042-2274 | the peer is in step after every prefix of a session if and only if every toggle was faithful |
| `LoginOptions.OfferedSessionInStep` | client/upstream/src/client.rs:2042-2274 | incremental messages refine the full one when overridden flags are toggled only outside view-only and the own cursor only inside it: for every flag but the own cursor from any configuration, for that one too if it started hidden or inside view-only |
| `LoginOptions.ViewOnlyResynchronises` | client/upstream/src/client.rs:2128-2157 | toggling view-only brings every overridden flag back in step from any state of the peer |
| `SessionRegistry.Registry.InsertSession` | client/upstream/src/flutter.rs:2229-2242 | the session is there without displays and nothing else changed; no peer is empty, the reported count is the number of peers, and ids stay unique exactly if the id is new to other peers |
| `SessionRegistry.Registry.InsertPeerSessionId` | client/upstream/src/flutter.rs:2251-2282 | joins an existing peer with the given displays and changes nothing else, or fails; the count stays right without a report |
| `SessionRegistry.Registry.RemoveSessionBySessionId` | client/upstream/src/flutter.rs:2098-2119 | in any iteration order, removes the session, and the peer exactly if it was its last |
| `SessionRegistry.Registry.WouldRemovePeerBySessionId` | client/upstream/src/flutter.rs:2121-2139 | true exactly when the removal would return the peer |
| `SessionRegistry.NextKeepsSoundExactly` | client/upstream/src/flutter.rs:2098-2119 | with the locked sections of removals interleaved with everything else, a step keeps ids unique and the empty peers exactly those about to be dropped if and only if it joins, with a fresh id, no peer about to be dropped |
| `SessionRegistry.RunKeepsSound` | client/upstream/src/flutter.rs:2098-2119 | whole orderly runs stay sound, without empty peers when no removal is in progress |
| `SessionRegistry.RemovalAlone` | client/upstream/src/flutter.rs:2098-2119 | the two locked sections of a removal back to back do what the undisturbed removal does |
| `SessionRegistry.JoinedSessionStays` | client/upstream/src/flutter.rs:2229-2282 | from the start of any orderly run, a session that joins stays until its own removal, with the displays it joined with until it joins again |
| `SessionRegistry.JoinSurvivesExactly` | client/upstream/src/flutter.rs:2098-2119 | a session that joins under a fresh id stays registered in every orderly continuation without its own removal if and only if its peer is not about to be dropped |
| `SessionRegistry.RunKeepsFreshExactly` | client/upstream/src/flutter.rs:2244-2248 | a report is owed or the number sent last is right, at every point of a run, if and only if no report sent last overtakes a wrong one and no last owed report fails over a wrong one |
| `SessionRegistry.ReportedIsRight` | client/upstream/src/flutter.rs:2244-2248 | if all reports arrive in the order they were sent, the server's number is the number of peers whenever nothing is owed or in flight |
| `SessionRegistry.OvertakenReportStaysWrong` | client/upstream/src/flutter.rs:2244-2248 | a run in which two reports arrive in the other order and the number stays wrong |
| `SessionRegistry.JoiningADyingPeerIsLost` | client/upstream/src/flutter.rs:2098-2119 | a run in which a session joins between the two sections and is lost |
| `SoftRender.FlutterHandler.OnRgbaSoftRender` | client/upstream/src/flutter.rs:1186-1246 | an unread frame is left alone; otherwise display and decoder swap buffers and no other display or byte changes; the frame stays unread exactly if a stream with this one display is there, or the only session shows at most one |
| `SoftRender.SentExactly` | client/upstream/src/flutter.rs:1218-1238 | who is notified: a session with a stream that shows exactly this display, or the only session if it shows at most one |
| `SoftRender.FlutterHandler.GetRgba` | client/upstream/src/flutter.rs:1088-1095 | a pointer only to a valid frame |
| `SoftRender.FlutterHandler.NextRgba` | client/upstream/src/flutter.rs:1098-1102 | the frame may be replaced |
| `SoftRender.FlutterHandler.UpdateUseTextureRender` | client/upstream/src/flutter.rs:657-661 | all display buffers are given up |
| `SoftRender.NewFrameValidExactly` | client/upstream/src/flutter.rs:1218-1245 | a newly stored frame stays valid exactly when some stream was notified |
| `SoftRender.StoringConservesBuffers` | client/upstream/src/flutter.rs:1197-1213 | swapping conserves the buffers in use, plus a new one for a new display |
| `SoftRender.NextKeepsStableExactly` | client/upstream/src/flutter.rs:1186-1246 | the two steps that can take the bytes from under a reader: a withdrawal, and a reset of the display by another party |
| `SoftRender.ReadersSeeStableBytes` | client/upstream/src/flutter.rs:1088-1102 | over whole runs, from a non-null pointer until the next frame is asked for or all is cleared, the bytes never change however many frames arrive |
| `SoftRender.NextFrameReachesReader` | client/upstream/src/flutter.rs:1098-1246 | once the reader has asked for the next frame, the next one decoded is announced to a session showing the display, and its bytes are what the reader gets |
| `SoftRender.ToldReaderNeverLosesItsFrame` | client/upstream/src/flutter.rs:1215-1245 | in every run from the start, a reader that takes a frame only after it was notified finds one and never loses it, unless another party resets the display or all is cleared in mid-render |
| `SoftRender.UninterruptedRenderIsSafe` | client/upstream/src/flutter.rs:1186-1246 | if the renderer's two sections run back to back, no withdrawal hits a reader |
| `SoftRender.WithdrawalCorruptsReader` | client/upstream/src/flutter.rs:1239-1245 | a run in which a session of two displays, which is not notified, has the bytes overwritten under it |
| `LanMerge.HandleReceivedPeers` | client/upstream/src/lan.rs:305-344 | the receive loop computes the merge of the stored list with the responses |
| `LanMerge.RoundOutcome` | client/upstream/src/lan.rs:305-344 | responders first by most recent response, each as in its last response, online, with every address heard and the hardware address its first naming response gave; stored addresses stay, and win, exactly when the id was heard under another name before; then the silent peers in their order, offline |
| `LanMerge.FirstMacMeaning` | client/upstream/src/lan.rs:319-326 | the kept hardware address of an address is that of the first response of the peer that names it |
| `LanMerge.RoundKeepsList` | client/upstream/src/lan.rs:305-344 | no duplicates, exactly the stored and heard peers, online exactly if heard |
| `TlsFallback.TlsCache.PostRequest` | client/upstream/src/common.rs:1126-1227 | an undisturbed request makes exactly the one attempt that the two tables hold for its host, or the listed fallbacks of what they leave open; each case of URL, option and tables is spelled out; the cache gains only a pair that succeeded |
| `TlsFallback.TlsCache.GetHttpResponse` | client/upstream/src/common.rs:1235-1341 | the second recursion, with its own checks on every level, makes exactly the attempts of the first, or none if verb or header is bad |
| `TlsFallback.TlsCache.HttpRequest` | client/upstream/src/common.rs:1344-1364 | the general request is tied to the tables in the same way, and makes no attempt if verb or header is bad |
| `TlsFallback.RequestFollowsPlan` | client/upstream/src/common.rs:1145-1227 | the recursion terminates and walks through the open libraries and certificate policies in order, up to the first outcome that is not a failed request |
| `TlsFallback.RequestsAreLawful` | client/upstream/libs/hbb_common/src/tls.rs:75-96 | however requests overlap: at most four attempts, at most two with the option off, one for a plain URL or when both lookups hit, and invalid certificates are accepted only by a request that found the option on |
| `TlsFallback.CacheHoldsSuccesses` | client/upstream/libs/hbb_common/src/tls.rs:43-62 | over any run of overlapping requests each cached entry comes from a success for its host, and while nobody finds the option on none accepts invalid certificates |
| `TlsFallback.RequestFindsLastWritten` | client/upstream/libs/hbb_common/src/tls.rs:43-96 | with requests and clearing interleaved, a request finds in each table the entry for its host that was written last and not cleared since |
| `TlsFallback.NextPairsExactly` | client/upstream/libs/hbb_common/src/tls.rs:43-62 | every step leaves settled hosts with pairs that succeeded, except exactly a last open write beside a library that another request wrote and that never succeeded under its policy |
| `TlsFallback.TearingTakesTwo` | client/upstream/libs/hbb_common/src/tls.rs:43-62 | such a write needs two requests that disagree in both: the cached library differs from the writer's and succeeded under the opposite policy |
| `TlsFallback.CachedPairsSucceeded` | client/upstream/libs/hbb_common/src/tls.rs:43-62 | if no two requests store for a host at once, every pair cached for a settled host succeeded for it |
| `TlsFallback.TornPair` | client/upstream/libs/hbb_common/src/tls.rs:43-62 | two requests that store at once leave a pair that never succeeded |
| `OnlineStates.QueryOnlineStates` | client/upstream/src/client.rs:4024-4038 | decoding selects by bit, and panics exactly when there are too few bytes |
| `OnlineStates.OrderPreservingPartition` | client/upstream/src/client.rs:4024-4038 | the ids are a shuffle of the two lists |
| `OnlineStates.ShuffleConserves` | client/upstream/src/client.rs:4024-4038 | so nothing is lost or invented |
| `OnlineStates.ReEncoding` | client/upstream/src/client.rs:4029-4035 | for distinct ids, encoding the result most significant bit first gives the server's bits back |
| `DecoderHealth.VideoHandler.HandleFrame` | client/upstream/src/client.rs:1583-1633 | how a frame changes the failure counter and the first-frame flag, with a reset on a new codec, the penalty of three for a failed first frame and the saturation of the counter |
| `DecoderHealth.VideoHandler.CheckInvalidDecoder` | client/upstream/src/client.rs:2906-2920 | a codec whose decoder is invalid or has failed three times is appended once, and an update is due exactly then |
| `DecoderHealth.CounterIsTrace` | client/upstream/src/client.rs:1583-1648 | in every run, however long, the counter is the number of trailing failures since the reset, plus two if the first frame is among them, saturated at the largest `usize` |
| `DecoderHealth.ReportedExactly` | client/upstream/src/client.rs:2906-2920 | over any run a codec gets reported exactly if the decoder is invalid, three frames in a row failed, or the first failed and nothing since worked |
| `DecoderHealth.UnsupportedGrows` | client/upstream/src/client.rs:2913-2917 | the list of unsupported codecs never repeats one and only grows |
| `FileNameConfig.GetCustomServerFromString` | client/upstream/src/custom_server.rs:39-87 | the extension, the search in the lower-cased name, the slice at its byte offset, which may panic, and the loop over the comma-separated parts compute the settings |
| `FileNameConfig.RoundTrip` | client/upstream/src/custom_server.rs:39-87 | items in any order after the host, keywords in any case, other text in between and any harmless prefix parse to what they say |
| `FileNameConfig.RoundTripsExactly` | client/upstream/src/custom_server.rs:58-60 | for every prefix, everything printable behind it parses back if and only if the prefix is harmless: the byte offset of the lower-cased prefix falls on a character of the prefix from which on it is whole parts that set nothing but the host |
| `FileNameConfig.PlainPrefixIsHarmless` | client/upstream/src/custom_server.rs:58-59 | a prefix without the keyword is harmless if each character is ASCII or keeps its bytes in lower case |
| `FileNameConfig.DottedIIsHarmful` | client/upstream/src/custom_server.rs:58-59 | a capital I with a dot is not harmless: its lower case is a byte longer |
| `FileNameConfig.SharpSPanics` | client/upstream/src/custom_server.rs:58-59 | behind a capital sharp s every printed name makes the slice panic |
| `FileNameConfig.CopiedInstaller` | client/upstream/src/custom_server.rs:47-58 | a copied installer with a comma before the copy suffix still carries its four settings, whatever they are and in whatever letter case, behind any harmless prefix |
| `FileNameConfig.ExtensionExactly` | client/upstream/src/custom_server.rs:40-46 | one extension is taken off exactly when the rest does not end in another |
| `FileNameConfig.ExtensionsAreIgnored` | client/upstream/src/custom_server.rs:40-46 | for a name that does not end in an extension, one or two of them, in any letter case, make no difference |
| `FileNameConfig.LicenceBranch` | client/upstream/src/custom_server.rs:58-107 | a name without the keyword is left to the licence branch |
| `FileNameConfig.SplitJoin` | client/upstream/src/custom_server.rs:60-60 | splitting undoes joining for parts without commas |

## Left out

- Integer width: `usize` and `i64` arithmetic is unbounded, except for the saturation of the decoder's counter.
- The ring buffer library: its operations are sequence operations; sample values are reals; the time of the last
  histogram check is a field, where the program shares one static among all buffers.
- The waiting of the audio callback for more data, resampling, rechannelling and codecs.
- The key code is a function of the key; Legacy and Translate modes and lock-key modifiers are not part of this model.
- `Keyboard.ReleaseRemoteKeys` runs to its end undisturbed; two threads are the subject of `NextCoversExactly`. There, the
  tests of the grab loop (shortcut and long press) are one step, and there is one sweep at a time.
- Clipboards: forced reads at connection start, the cache for late peers, and the file clipboard service; the operating
  system keeps the owner format and fires one notification for each change.
- Fleet registration: login, password generation, the settings lock-down and the construction of the alias; a failed
  login ends the call before anything modelled here.
- LoginPassword: the messages sent, one-time codes and terminal administration; SHA-256 is an uninterpreted function.
- LoginOptions: image quality, frame rate, decoder support and connection types other than the default one; names are an
  enumeration with a case for all other strings.
- SessionRegistry: display capture requests and the contents of UI sessions beyond their displays. The methods of
  `Registry` are undisturbed calls; interleaving is the subject of `NextKeepsSoundExactly`.
- SoftRender: hooks, texture rendering and several readers of one display.
- TLS: the parsing of URLs, proxies and the HTTP client itself; the header of the general request is its parsed form. The
  other users of the two tables (the update check, the blocking and asynchronous client builders for a URL, WebSocket
  connects and the proxy) are not part of the runs.
- FileNameConfig.GetCustomServerFromString: the licence branch is a parameter, and so is lower-casing, one character at a
  time; that a capital sigma has two small forms, both of its own width, is not distinguished.
- Sockets, relays, IPC dispatch, the UI bridge, build scripts and management tools.
