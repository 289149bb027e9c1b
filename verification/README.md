# KVM engine model

A Dafny model of the macOS remote-desktop (KVM) engine of the agent, with proofs. The engine is a
set of small protocols: a viewer's input frames arrive through a relay and a local socket and are
reassembled in a fixed buffer; a new viewer takes a session over from a stale one; the agent
announces its displays, follows the selection and maps mouse positions back; it injects keys and
clicks with its own record of modifiers, buttons and click counts through a bounded queue, or, at
the login window, through an RFB client (RFC 6143) of the local Screen Sharing server. Beside it
stand the clipboard socket and the refresh of the agent's copy.

`dafny verify dfyconfig.toml` checks everything.

| files | what they model |
|---|---|
| `Bytes`, `Sequences`, `Wrappers`, `Framing`, `IoLoops` | big-endian integers, reassembly of length-delimited messages, the exact read and write loops |
| `InputStream`, `InputLoop`, `Harness` | the input thread's reassembler as a function on reads, as the buffer loop that computes it, and against an encoder of keys, characters, mouse and wheel frames |
| `Modifiers`, `MouseFlags`, `Session` | session takeover as a state machine of the input thread, the main loop, the listener and the viewers |
| `Displays`, `DisplayState`, `Geometry`, `Capture` | display list, selection, announcement, frame geometry, the composite image, the scale cache, the re-initialisation test |
| `Pointing` | a click's way from a pixel of the image to a point of the desktop, across encoder, handler, injector and geometry |
| `Injection`, `PostQueue` | modifiers, buttons, clicks and drags; the 512-slot post queue and its worker |
| `Delivery` | the injector and the queue together: what a delivered event carries, and in which order |
| `Keysyms`, `Rfb`, `Handshake` | the RFB client's tables, its injection functions, its handshake |
| `Relay` | the two daemon-side read handlers, normal and jumbo frames |
| `Utf8`, `Clipboard` | the clipboard protocol, its server and both clients |
| `AgentCopy` | comparing, copying and renaming the agent's copy, and finding the daemon from it |

Where the code works step by step on variables the model is a class or a method with loops, proved
equal to a function of the old state; what is claimed is then proved of that function, over all
histories. Where two threads interleave the model is a state machine with one event per step, and
the claims hold in every state of every run.

## Where the code does not do what is said of it

The members named here give the exact condition under which a claim holds, or a run in which it
fails; what names none is how the model's definitions follow the code.

- A header that declares size 0 is handed to the message switch again on every read, because the
  handler returns 0 after acting (`agent/mac_kvm.c:706-718`, `agent/mac_kvm.c:987`). Key, character
  and mouse messages check their size and inject nothing, but display-list and refresh requests do
  act. So the *injections* of a stream never depend on how it was split into reads, and the *calls*
  do not depend on it exactly when no byte follows such a header (`InputStream.CallsIndependentIff`).
- Modifiers are reset when a viewer is evicted (`agent/mac_kvm.c:945`) but not when the next one is
  accepted after an end of file (`agent/mac_kvm.c:1117-1144`): the log decides which are then held
  (`Session.HeldAtTakeover`), and in one run Shift is (`Session.ShiftSurvivesReaccept`).
- The same reset never reaches the RFB client: the next viewer's keys are plain exactly when the server
  last saw Shift released (`Rfb.ResetClearsShiftIff`), and a state in which it did not is reachable
  (`Rfb.ShiftOutlivesReset`).
- Injected events carry the tracked modifiers and an inherited Caps Lock, nothing else: the Fn and
  keypad flags that `agent/mac_events.c:1611-1612` says are kept are overwritten
  (`agent/mac_events.c:174`). The nine key-ups of a reset are posted with whatever flags they inherit.
- Left and right Command share one flag (`agent/mac_events.c:107-108`), so it says that one of them is held
  exactly unless the last Command frame released one while the other is held (`Injection.CommandFlagIff`);
  in one history it is lost that way (`Injection.CommandLost`).
- "All displays" is announced and honoured (`agent/mac_kvm.c:446-456`), despite the comment at
  `agent/mac_kvm.c:801-803`; so is the id 0, which is never announced (`Displays.RequestSelects`).
- The scale cache (`agent/mac_kvm.c:293-295`) answers with the scale the display had when the current
  run of questions about it began (`Capture.AnswerIsRightIff`, `Capture.StaleAnswer`). The frame is right
  exactly when the first display asked about is not the cached one, has the cached scale, or is outdone by
  the others either way (`Capture.FrameIsRightIff`). With two or more displays in one image it is always
  right again in the next round (`Capture.NextRoundIsRight`); with one display it may never be
  (`Capture.LoneDisplayStaysStale`).
- The test for a new frame looks at neither scale nor origin (`agent/mac_kvm.c:1186`). For a fixed layout
  that does no harm (`Geometry.SelectionChangeNeverMissed`). When the layout changes a turn leaves the frame
  right exactly under the condition of `Capture.TurnIsRightIff`: a display moved without being resized keeps
  its old origin (`Geometry.MoveIsMissed`), and clicks land beside the point shown (`Pointing.ClickAfterMove`).
- The RFB client compares the whole key code with the Shift codes but looks symbols up by its low
  byte (`agent/mac_events.c:1088-1098`), so for codes from 0x100 up with such a low byte its record
  of Shift goes wrong (`Rfb.KeyKeepsMirrorIff`). The agent's key map has no such code.
- The relay needs a fifth byte before it looks at a normal frame and a ninth before it looks at a
  jumbo frame, so a frame of 4 bytes, or a jumbo frame without payload, waits for the byte after it
  (`Relay.ForwardedOnArrivalIff`).
- A clipboard text comes back up to its first NUL (`Clipboard.SetThenGet`); one longer than 32 MiB is
  dropped without an answer (`Clipboard.AckMeansStored`).
- Comparing and copying the agent take a read error for the end of the file
  (`agent/mac_kvm.c:2413-2419`, `agent/mac_kvm.c:2568`): `AgentCopy.ReportIsRightIff` and
  `AgentCopy.InstalledWholeIff` say which errors do no harm, `AgentCopy.ErrorsLookLikeEquality` and
  `AgentCopy.EmptiedByAReadError` show ones that do. The rename also happens when the forty looks for
  running agents all find some (`agent/mac_kvm.c:2603-2611`, `AgentCopy.RenamesUnderRunningAgents`).
- The encoder of the harness ignores failed sends (`agent/kvm_input_harness.c:36-41`), so what arrives is
  the sequence of calls exactly when no send stops partway (`Harness.EndToEndIff`).

## Model

| member | source | states |
|---|---|---|
| InputLoop.Loop.InputData | agent/mac_kvm.c:698-716 | One call of the handler on the bytes from `ptr`: it consumes exactly a complete frame and has been called with that frame, or consumes nothing; a size-0 header is acted on and not consumed |
| InputLoop.Loop.Drain | agent/mac_kvm.c:987 | Calling the handler until it returns 0 terminates, takes exactly the frames of the recursive parse off the buffer in order, and stops at the parse's leftover |
| InputLoop.Loop.Compact | agent/mac_kvm.c:996-997 | What was not consumed is at the front of the buffer afterwards, in order |
| InputLoop.Loop.OnRead | agent/mac_kvm.c:955-997 | One turn of the input thread: a failed or empty read asks for a reset and changes nothing else; otherwise the calls made and the bytes kept are those of one pass of the specification |
| InputLoop.Loop.Run | agent/mac_kvm.c:916-998 | The thread's whole life on one connection: for any reads that fit the room left, ended by a failed one, the calls made and the bytes kept are those of the specification, and a reset is asked for |
| Framing.ParseAppend | agent/mac_kvm.c:987-997 | A parse can be stopped after any byte and resumed with the leftover in front of the rest |
| Framing.FeedIsParse | agent/mac_kvm.c:978-997 | Feeding a stream in any pieces gives the messages and the leftover of parsing it whole |
| InputStream.PassesClosedForm | agent/mac_kvm.c:978-997 | For any stream, malformed ones included, and any reads: the calls are the frames of the whole stream's parse followed by one repeated call per read that met a size-0 header, and the bytes kept are the parse's leftover |
| InputStream.InjectionsChunkIndependent | agent/mac_kvm.c:718-751 | Two ways of splitting one stream into reads inject the same keys, characters and pointer actions and keep the same bytes; which bytes inject what is fixed by `Harness.KeyFrameIff`, `Harness.CharFrameIff` and `Harness.PointerFrameIff` |
| InputStream.CallsIndependentIff | agent/mac_kvm.c:706-718 | For a stream that fits the buffer, the handler's calls are the same for all ways of reading it if and only if no byte follows a complete size-0 header |
| InputStream.StuckEarlyDepends | agent/mac_kvm.c:706-718 | If a byte follows it, two ways of reading give different numbers of calls |
| InputStream.StuckExample | agent/mac_kvm.c:706-718 | Such a stream: a key header of size 0 and one byte |
| InputStream.FitsByByte | agent/mac_kvm.c:955 | A stream that can be read at all within the buffer can be read a byte at a time |
| InputStream.FullOnlyWithBadHead | agent/mac_kvm.c:955-977 | However a stream was read, the buffer is full, so that the next read of 0 bytes would look like an end of file, only behind a header that declares 0 or more than 30000 bytes |
| InputStream.BadHeadIsForever | agent/mac_kvm.c:955-977 | Behind such a header nothing more is dispatched, however much arrives, and only as many reads as the buffer has room for bytes can still be made before the reset path |
| Harness.Send | agent/kvm_input_harness.c:22-42 | Under any short writes the bytes sent are a prefix of the frame, all of it exactly when no write failed for good |
| Harness.FrameDecodes | agent/mac_kvm.c:705-716 | The agent's framing undoes the encoder's, frame by frame |
| Harness.KeyFrameIff | agent/mac_kvm.c:724-735 | A call of the handler injects a key with this direction exactly for the six bytes 0, 1, 0, 6, direction, key |
| Harness.CharFrameIff | agent/mac_kvm.c:720-723 | It injects a character exactly for the seven bytes 0, 85, 0, 7, direction, and the 16 bits in network order |
| Harness.PointerFrameIff | agent/mac_kvm.c:736-751 | It injects a pointer action exactly for a 10 or 12-byte frame of type 2: the place is what bytes 6 to 9 say over the scale, the button is byte 5, the wheel is the signed word in bytes 10 and 11, 0 in the short form |
| Harness.OtherFramesInjectNothing | agent/mac_kvm.c:718-751 | Frames of these types in any other size inject nothing; every other type is passed on unchanged |
| Harness.EndToEnd | agent/mac_kvm.c:718-751 | Any sequence of `mouse` and `key` calls, characters and turns of the wheel, received through any reads, is dispatched as exactly that sequence, with 16-bit coordinates over the scale at hand, the button, the key, the character, the signed turn and the sign-extended `up`, and no byte is left |
| Harness.CharacterArrives | agent/mac_kvm.c:720-723 | Through any reads the frame of any character, pressed or released, arrives as one call that types that character that way |
| Harness.WheelArrives | agent/mac_kvm.c:735-749 | Through any reads the 12-byte frame of any turn from -32768 to 32767 arrives as one call with that turn, its sign included, at that place |
| Harness.EndToEndIff | agent/kvm_input_harness.c:22-42 | Under any outcomes of the writes and any reads, exactly the sequence of calls arrives, each as one call of its frame's size, if and only if no send stops partway |
| Harness.FramesNeverFill | agent/kvm_input_harness.c:32-42 | After any prefix of such a stream fewer than twelve bytes are pending |
| IoLoops.SendAll | agent/kvm_input_harness.c:22-30 | What has been written is the prefix that the write results let through; success exactly if it is everything |
| IoLoops.WriteAll | agent/mac_events.c:789-798 | The same without retrying |
| IoLoops.ThroughIff | agent/kvm_input_harness.c:22-30 | Such a loop moves everything if and only if, before any result it gives up on, the results add up to as many bytes |
| IoLoops.ReadAll | agent/mac_events.c:778-787 | Success exactly if the peer sends enough and no read fails first; then the buffer holds the next bytes in order, and beyond them it is untouched |
| Session.ControlKept | agent/mac_kvm.c:909-977 | Every step keeps: at most one input thread, none while a reset is pending or a new connection is awaited, one while serving |
| Session.ClosedKept | agent/mac_kvm.c:941-947 | Every step keeps: a connection not yet accepted has not been closed, the current one not yet, every earlier one once |
| Session.StreamsKept | agent/mac_kvm.c:949-978 | Every step keeps: what was read of a connection is a prefix of what was sent on it, and the pending bytes are the leftover of the current connection's own reads |
| Session.LoggedKept | agent/mac_kvm.c:987 | Every step keeps: a connection's calls are those of its own reads, and connections do not interleave |
| Session.TakeoverSafe | agent/mac_kvm.c:926-977 | In every state of every run: at most one input thread; a pending reset implies it has ended; no connection closed twice; every accepted connection but the current one closed once; while serving, the current one open and read by one thread |
| Session.NewViewerIsServed | agent/mac_kvm.c:941-950 | In every run an eviction leaves main loop, reset flag and shutdown flag as they were, and one thread with nothing pending on the new connection, which is open; so does accepting the first or a next viewer, with no reset pending; the frame is zeroed for whoever takes over; and all of what the new viewer sends can be read, in any pieces |
| Session.WaitingViewerGetsIn | agent/mac_kvm.c:926-951 | From every state of every run short of shutdown at most two steps of the agent make the viewer who waits longest the one who is served |
| Session.ResetClosesTheEnded | agent/mac_kvm.c:965-977 | In every run the main loop closes a connection only after a read on that very connection failed or ended |
| Session.ReadToTheEnd | agent/mac_kvm.c:955-997 | From every state of every run with a thread and nobody waiting, reads alone get through all its viewer has sent, unless the buffer has filled behind a header of size 0 or above 30000 |
| Session.SessionIsolation | agent/mac_kvm.c:900-902 | In every state of every run the calls made for a connection are the frames of the parse of that connection's bytes alone, from its first byte, and all calls of an earlier connection come first: no byte left over is ever joined to another connection's |
| Session.HeldAtTakeover | agent/mac_kvm.c:1117-1144 | A viewer that evicts starts with no modifier held; one accepted after an end of file starts with m held if and only if, among the frames since the last eviction, the last key frame of m was a press; both find the frame size zeroed |
| Session.HeldIsMods | agent/mac_events.c:1653-1660 | In every state of every run the session's record of held modifiers is the injector's after the frames since the last eviction, at whatever scales and moments they were handled |
| Session.ShiftSurvivesReaccept | agent/mac_kvm.c:1117-1144 | A run in which the second viewer starts with Shift held |
| Displays.SortOrdersAndPermutes | agent/mac_kvm.c:236-265 | The insertion sort's result is ordered (main first, then x, then y) and a permutation |
| Displays.RefreshedIsOrdered | agent/mac_kvm.c:223-270 | After a refresh the list holds exactly the unmirrored displays among the first 16 enumerated, each as often as enumerated, or the main one alone if there is none; main first, then by x, then by y; the selection is kept if the count allows and otherwise 1 |
| Displays.OrderedIsUnique | agent/mac_kvm.c:256-259 | Two ordered lists of the same displays with distinct origins are the same list |
| Displays.CanonicalOrder | agent/mac_kvm.c:236-244 | Two orders in which the system may enumerate one layout give the identical list, whatever is mirrored |
| Displays.MirrorsShareOrigins | agent/mac_kvm.c:220-234 | A display listed with its mirror at the same place is such a layout |
| Displays.AnnouncementReadsBack | agent/mac_kvm.c:446-459 | Reading the announcement back gives its type, 65535, then 1 up to the count, and the current selection; with one display, no entries and selection 0 |
| Displays.RequestSelects | agent/mac_kvm.c:796-813 | A request lists the displays afresh; 65535 and 0 select all, a number up to the count that display, and any other leaves the selection the refresh gives |
| Displays.AdvertisedIdIsHonoured | agent/mac_kvm.c:796-834 | Asking for any announced id makes the next announcement show it selected with the same ids, over the same displays in the same order, however the system enumerates the unchanged layout each time |
| DisplayState.InsertInPlace | agent/mac_kvm.c:245-265 | The shifting loop leaves the array as inserting the key among the sorted displays below it, and everything above in place |
| DisplayState.SortInPlace | agent/mac_kvm.c:245-265 | The nested loops sort the first `count` slots and leave the others |
| DisplayState.State.Refresh | agent/mac_kvm.c:223-270 | The globals after a refresh are the specified list and selection |
| DisplayState.State.OnSetDisplay | agent/mac_kvm.c:796-834 | The globals after a request are the specified ones |
| DisplayState.State.SendDisplayList | agent/mac_kvm.c:427-465 | The message is the announcement of the refreshed globals |
| DisplayState.BuildWords | agent/mac_kvm.c:446-459 | Every 16-bit word of the message is written exactly once and is the announcement's word |
| Geometry.CombinedIsLarger | agent/mac_kvm.c:340-363 | With two or more disjoint displays the frame of all of them differs in width or height from that of any one |
| Geometry.SelectionChangeNeverMissed | agent/mac_kvm.c:1170-1193 | For any layout and any two selections, "all" included, the test on width, height and display fires exactly when the two frames differ in anything, scale and origin included |
| Geometry.FrameOfSelection | agent/mac_kvm.c:312-363 | A selection within the count frames that display at its own scale; selection 0 outside the login window the union of all at the largest scale; anything else the main display |
| Geometry.ScaleIsRatio | agent/mac_kvm.c:297-307 | The scale is the whole number of pixels to a point where the mode has at least one, and 1 otherwise |
| Geometry.MaxScaleIsSome | agent/mac_kvm.c:353-363 | The largest scale is one display's, or the 1 the search starts from |
| Geometry.UnionIsLeast | agent/mac_kvm.c:340-347 | The union lies in every rectangle that holds all the displays |
| Geometry.MoveIsMissed | agent/mac_kvm.c:1186 | Moving the one display shown without resizing it never fires the test, so the frame stays right exactly if it was not moved at all |
| Geometry.ZeroedFrameFires | agent/mac_kvm.c:948 | A zeroed frame always fires the test, and the frame then taken is not empty and has scale at least 1 |
| Geometry.DestinationInside | agent/mac_kvm.c:395-403 | Every display's rectangle lies in the composite image |
| Geometry.DestinationsDisjoint | agent/mac_kvm.c:395-403 | Disjoint displays have disjoint rectangles |
| Geometry.DestinationAbove | agent/mac_kvm.c:395-403 | A display below another is drawn in lower rows of the bitmap, whose rows count upwards |
| Geometry.MouseUndoesComposite | agent/mac_events.c:1496-1497 | A click on any pixel that shows a global point, rows counted from the top, is mapped to exactly that point |
| Geometry.CompositeUndoesMouse | agent/mac_kvm.c:742-748 | Every pixel of a display's rectangle shows the point a click on it is mapped to, and that point is on that display |
| Pointing.InjectedAt | agent/mac_kvm.c:742-748 | A mouse frame becomes one event in session, none otherwise, at the 16-bit coordinates over the scale plus the origin |
| Pointing.ClickLandsWhereShown | agent/mac_events.c:1496-1497 | With all displays in one image, a frame the encoder makes of any pixel that shows a point of the desktop is injected at exactly that point, for any layout and mixed scales, as long as the image fits 16-bit coordinates |
| Pointing.ClickOnOneDisplay | agent/mac_events.c:1496-1497 | With one display shown, a click on any of the pixels its point is spread over is injected at that point, whatever the display's origin |
| Pointing.ClickAfterMove | agent/mac_events.c:1496-1497 | After such a move a click on a pixel is injected away from the point it shows, by exactly how far the display was moved |
| Capture.AnswerIsFromRunStart | agent/mac_kvm.c:291-309 | After any history of questions the cached answer is the scale the display had when the current run of questions about it began |
| Capture.AnswerIsRightIff | agent/mac_kvm.c:293-295 | So the answer is right if and only if the scale is what it was then |
| Capture.StaleAnswer | agent/mac_kvm.c:293-295 | A mode change of the only display in use goes unnoticed |
| Capture.FrameIsRightIff | agent/mac_kvm.c:291-363 | For any cache and any selection the frame made out is the selection's if and only if the first display asked about is not the cached one, or has the cached scale, or, with all shown, neither its scale nor the cached one exceeds that of the others |
| Capture.NextRoundIsRight | agent/mac_kvm.c:353-363 | With two or more displays shown as one image, the cache left by one round of questions makes the next frame out right, whatever modes changed between them |
| Capture.LoneDisplayStaysStale | agent/mac_kvm.c:293-295 | With one, a wrong answer stays through any number of rounds |
| Capture.TrueCacheTrueFrame | agent/mac_kvm.c:340-363 | With a cache true of the displays asked about the frame made out is the selection's for any list of them and any selection, and the cache stays true through all the questions asked |
| Capture.TurnIsRightIff | agent/mac_kvm.c:1170-1193 | However the layout has changed since the frame was taken, displays gone included, and with a cache true of it: one turn leaves the frame right if and only if size or display changed too, or neither scale nor origin has |
| Capture.GoneIsNoticed | agent/mac_kvm.c:266-269 | When the display shown has gone the turn fires on any frame that is not empty, and leaves it right for the refreshed list |
| Capture.State.AskScale | agent/mac_kvm.c:291-309 | One question: the answer and the cache afterwards |
| Capture.State.AskBounds | agent/mac_kvm.c:340-347 | The union loop computes the bounds of the selection, as the listed displays are now |
| Capture.State.AskSelectedScale | agent/mac_kvm.c:353-363 | For any cache, stale ones included, and any list: the largest of the answers asked in turn, or the selected display's, and the cache that leaves |
| Capture.State.Init | agent/mac_kvm.c:601-657 | For any cache and any layout: the list is refreshed, and display, width, height, scale and origin are what the cache makes of layout and selection |
| Capture.State.Turn | agent/mac_kvm.c:1170-1193 | For any cache, any layout and any list, however old: the turn fires exactly by its test against what is made out now; it leaves the frame made out of the refreshed list if it fired, and everything but the cache as it was if not |
| Capture.State.TurnCatchesUp | agent/mac_kvm.c:1170-1193 | From a frame that was right for any earlier selection of the layout, or was zeroed, one turn leaves the frame right for the current selection in all six components |
| Injection.ModsAreHeld | agent/mac_events.c:1653-1660 | After any history the tracked flags contain m exactly when the last key frame mapping to m since start or reset was a press |
| Injection.NoModifierLeak | agent/mac_events.c:142-175 | Every key, character, click, move and scroll event handed to the queue carries m exactly then, and Caps Lock also if inherited, whatever the event source has accumulated |
| Injection.FlagsAreKeys | agent/mac_events.c:101-111 | After any history Shift, Control and Option are held exactly if the last frame of virtual key 0x10, 0x11 or 0x12 since start or reset had `up` 0 or 4; no flag but these and Command is ever held |
| Injection.CommandFlagIff | agent/mac_events.c:107-108 | For any history: the Command flag says that one of the two Command keys is held if and only if the last Command frame is not the release of one while the last frame of the other was a press |
| Injection.CommandLost | agent/mac_events.c:107-108 | Both pressed and one released: a Command key is held and the flag is not |
| Injection.ClicksClosedForm | agent/mac_events.c:1562-1578 | After any history the click count is (k-1) mod 3 + 1, k the length of the current run of presses each within 0.5 s and 5 px of the one before, 0 before any press |
| Injection.PressesSnoc | agent/mac_events.c:1496-1578 | Each in-session button press adds its moment and place, the frame's plus the origin, to the presses counted |
| Injection.RunGrows | agent/mac_events.c:1564-1573 | A press lengthens the run exactly if it comes within 0.5 s of the press before and at most 5 px away |
| Injection.ButtonsClosedForm | agent/mac_events.c:1555-1561 | After any history a button's flag is set exactly when its last frame was a press |
| Injection.ClicksAndDrags | agent/mac_events.c:1536-1588 | Every button event carries the count of the latest press; a move is posted as a drag exactly when the replayed history says a button is held, the left one first, and then carries that count |
| Injection.KeysPosted | agent/mac_events.c:1602-1676 | For any history and any key frame: exactly one key event is posted, with the table's code and down exactly if `up` is 0 or 4; none exactly if no table has the key, it releases a lock key, the session is the login window, or no event could be created |
| Injection.CharactersPosted | agent/mac_events.c:1715-1767 | For any history and any character frame: exactly one event with that character and its key's code is posted, down exactly if `up` is 0; none under the same kind of conditions |
| Injection.PointersPosted | agent/mac_events.c:1491-1589 | For any history and any pointer frame in session: a turn of the wheel posts one scroll its own way, of a third of it but at least 1 and at most 160, and nothing else; no button posts a move, codes 2, 4, 8 and 16 post left or right button down or up, at the frame's place plus the origin; any other code posts nothing |
| Injection.RestPosted | agent/mac_events.c:711-733 | No other frame posts anything; a reset posts the nine key-ups in order |
| Injection.Injector.KeyAction | agent/mac_events.c:1618-1676 | The globals and the events posted are those of the specified step: what it posts is fixed by `Injection.KeysPosted`, what it records by `Injection.ModsAreHeld` |
| Injection.Injector.KeyActionUnicode | agent/mac_events.c:1715-1767 | The same for a character (`Injection.CharactersPosted`); it changes no modifier |
| Injection.Injector.MouseAction | agent/mac_events.c:1477-1589 | The same for moves, buttons and the wheel (`Injection.PointersPosted`, `Injection.ClicksAndDrags`) |
| Injection.Injector.ResetModifiers | agent/mac_events.c:196-200 | A reset clears the flags, keeps buttons and clicks, and posts the nine key-ups in order |
| PostQueue.SlotsKept | agent/mac_events.c:666-683 | Every step of poster and worker keeps: free slots and posts in flight add up to 512 |
| PostQueue.SlotIffRoom | agent/mac_events.c:672-677 | In every state of every run in which the poster waits it can take a slot exactly while fewer than 512 posts are in flight, and time out exactly while 512 are |
| PostQueue.TimesOutOnlyWhenFull | agent/mac_events.c:672-677 | In every run a post times out only while 512 others are queued or with the worker |
| PostQueue.QueueConserves | agent/mac_events.c:648-694 | In every state of every run: the slots add up; the callers' events submitted, and the at most one still in the poster's hands, are exactly those callers posted, in order; what was delivered, then what the worker holds, then the queue is what was submitted, in order, without exactly those that timed out, found no memory or are not yet enqueued |
| PostQueue.AllAttempted | agent/mac_events.c:685-733 | In every state of every run what has been attempted, and what is still to come, is exactly what callers asked for, in order: each event posted, before the first one the nine key-ups, and nine key-ups for each reset |
| PostQueue.DeliveredInPostingOrder | agent/mac_events.c:648-694 | What has been delivered is a subsequence of what callers posted |
| PostQueue.AllDeliveredIff | agent/mac_events.c:666-683 | Once all has come to rest, everything posted has been delivered if and only if no caller's event timed out or found no memory; when that can happen is fixed by `PostQueue.SlotIffRoom` |
| PostQueue.NeverShortDeliversAll | agent/mac_events.c:666-694 | A run that never has 512 posts in flight and never lacks memory has, once at rest, delivered exactly the events callers posted, in order |
| PostQueue.ComesToRest | agent/mac_events.c:648-694 | Every run can be finished without a further call and without losing anything more, and then all 512 slots are free |
| PostQueue.RestIsReached | agent/mac_events.c:648-694 | In every run the steps between two calls are bounded by the work there is, so that no run goes on for ever without one |
| PostQueue.ReferencesReleasedOnce | agent/mac_events.c:648-683 | In every state of every run each holder of an event has released its reference at most once, all have once nobody holds it, and none is gone while somebody does |
| PostQueue.ModifiersReleasedFirst | agent/mac_events.c:685-733 | In every run the first event of a caller is attempted only after the nine modifier key-ups, in order and directly before it |
| Delivery.DeliveredCarries | agent/mac_events.c:142-175 | For any history of frames and resets and any run of the queue that serves its events: every event delivered, however late and whatever is lost before it, was made by a frame of the history and carries m exactly when the last key frame of m up to that frame, since start or reset, was a press, and Caps Lock also if inherited then |
| Delivery.DeliveredInFrameOrder | agent/mac_events.c:648-694 | And the events are delivered in the order of their frames |
| Keysyms.OnlyShiftKeysShift | agent/mac_events.c:1002-1076 | A key's symbol, shifted or not, is a Shift symbol exactly for the two Shift keys' low bytes |
| Keysyms.CharactersAreNotShift | agent/mac_events.c:1142-1146 | No character's symbol is a Shift symbol |
| Rfb.SeenAppend | agent/mac_events.c:1105-1118 | One whole message more on the wire is one message more read by a server of RFC 6143, sections 7.5.4 and 7.5.5 |
| Rfb.KeyKeepsMirrorIff | agent/mac_events.c:1078-1119 | Key injection keeps the client's record equal to the server's for all states and all outcomes of writes if and only if the code does not hide a Shift key in its low byte |
| Rfb.MouseKeepsMirror | agent/mac_events.c:1169-1209 | So does every mouse injection: a wheel step's press and release, and a failure between the two, included |
| Rfb.UnicodeKeepsMirror | agent/mac_events.c:1134-1161 | So does every character |
| Rfb.PointerIsSeen | agent/mac_events.c:1169-1209 | After any history: a pointer frame gets through exactly if there is a connection, or one is made at least 5 s after the last attempt, and its writes succeed; the server then reads its place, negative coordinates as 0, with bit 0 set exactly if the last left-button frame on this connection was a press and bit 2 likewise for the right; a turn of the wheel as those bits plus 8 if up, plus 16 if down, and then those bits |
| Rfb.ButtonsAreRecorded | agent/mac_events.c:1177-1183 | After any history of keys, characters, pointer frames, resets, failures and reconnections an open client's record of each button says whether the last frame of that button on this connection was a press |
| Rfb.KeyIsSeen | agent/mac_events.c:1078-1119 | For every client whose record agrees with the server: the same for a key; the server reads one KeyEvent more, with the direction and the symbol the key has under the Shift the server itself last saw, none for a key without a symbol |
| Rfb.CharacterIsSeen | agent/mac_events.c:1134-1161 | The same for a character, whatever Shift is held: the symbol is the code itself in 0x20-0x7E and 0xA0-0xFF, and 0x01000000 more otherwise |
| Rfb.ResetLeavesPlainIff | agent/mac_events.c:1087-1098 | For every open connection on which the records agree: after the reset of an eviction the next viewer's key is seen as it is without Shift if and only if the server last saw Shift released or the key is the same with it |
| Rfb.ResetClearsShiftIff | agent/mac_events.c:196-200 | So all of the next viewer's keys are plain if and only if the server last saw Shift released: the reset changes nothing |
| Rfb.ShiftOutlivesReset | agent/mac_events.c:1088 | A reachable state in which the server last saw Shift pressed, and after a reset the key a is seen as A |
| Rfb.MirrorAlways | agent/mac_events.c:800-809 | In every reachable state a disconnected client has no Shift and no button recorded, and a connected one's mask is that of the last PointerEvent on this connection and its Shift flag the direction of the last Shift KeyEvent |
| Rfb.AttemptsApart | agent/mac_events.c:1081-1085 | Under a clock that does not go back two attempts to connect are at least five seconds apart |
| Rfb.TriesIff | agent/mac_events.c:1081-1085 | Under such a clock an injection tries to connect exactly if there is no connection, 5 s have passed since every earlier attempt, and the clock is past 5 |
| Rfb.VncClient.Send | agent/mac_events.c:1115-1118 | A message goes out whole or the client disconnects and forgets Shift and buttons |
| Rfb.VncClient.SendKey | agent/mac_events.c:1078-1119 | The globals and the bytes on the wire are those of the specified step: what the server then reads is fixed by `Rfb.KeyIsSeen` |
| Rfb.VncClient.SendUnicode | agent/mac_events.c:1134-1161 | The same for characters (`Rfb.CharacterIsSeen`) |
| Rfb.VncClient.SendMouse | agent/mac_events.c:1169-1209 | The same for the mouse: what the server then reads is fixed by `Rfb.PointerIsSeen` |
| Handshake.Connect | agent/mac_events.c:837-944 | The client connects exactly if the server's bytes let it and none of its own writes fails; it has then said version, response if asked for one, and ClientInit, in that order, and read up to 256 bytes of the name; otherwise it has said a prefix of that |
| Handshake.ServedClientGetsIn | agent/mac_events.c:879-939 | With a server of RFC 6143, Appendix A.1 and sections 7.2.2, 7.3.1 and 7.3.2, whatever it says to refuse, the client gets in if and only if no authentication is asked for or it has a password whose response is accepted; it has then said "RFB 003.003", the response and the shared flag; of ServerInit it leaves unread exactly what a name has beyond 256 bytes |
| Handshake.SharedPasswordIsAccepted | agent/mac_events.c:904-910 | A server that encrypts with the same password accepts the response: each half is the encryption of that half of the challenge |
| Relay.StdOutHandler | agent/mac_kvm.c:1465-1502 | One call forwards and consumes the frame at the head if it takes it to be complete, and consumes nothing otherwise |
| Relay.SocketReadHandler | agent/mac_kvm.c:1523-1557 | With someone to write to it agrees with the other handler on every buffer; with no one it discards everything |
| Relay.FrameLength | agent/mac_kvm.c:1472-1500 | A handler never takes a frame to be longer than what has arrived, for any 32-bit length field, negative ones included |
| Relay.NegativeJumbo | agent/mac_kvm.c:1472-1486 | A jumbo length from 0xFFFFFFF8 up takes 0 to 7 bytes off the frame's own header and forwards them; any other negative one is never complete, however much arrives |
| Relay.DeclaredIsTaken | agent/mac_kvm.c:1490-1499 | Any other header's size is taken as declared once so many bytes are there, sizes below 5 included; a size of 0 writes and consumes nothing, though the viewer's side is called |
| Relay.ForwardedOnArrivalIff | agent/mac_kvm.c:1472-1500 | A frame is forwarded when its last byte arrives if and only if it has 5 bytes, 9 for a jumbo one; any other waits for one byte more |
| Relay.IncompleteConsumesNothing | agent/mac_kvm.c:1501 | Nothing is consumed or written for a proper part of a frame |
| Relay.RelayForwardsFrames | agent/mac_kvm.c:1465-1502 | For any such frames, normal and jumbo mixed, and part of another, cut into any pieces, repeated calls forward exactly the frames in order and leave the part untouched |
| Utf8.DecodeOfEncode | agent/mac_kvm_sck.m:185 | Decoding what a string was encoded to gives the string |
| Utf8.EncodeOfDecode | agent/mac_kvm_sck.m:185 | Bytes that decode are the only encoding of what they decode to |
| Utf8.CStringOfEncode | agent/mac_kvm_sck.m:171-173 | The encoding up to its first NUL byte is the encoding of the string up to its first NUL |
| Utf8.FormOf | agent/mac_kvm_sck.m:171-173 | Every character is written in the shortest of the forms of section 3 of RFC 3629 |
| Clipboard.Server.HandleConn | agent/mac_kvm_sck.m:215-250 | What one connection writes and does to the pasteboard, for every operation, every request however truncated, and every outcome of its reads and writes |
| Clipboard.WriteIsServed | agent/mac_kvm_sck.m:235-249 | A `W` request read whole is acknowledged with `K` if its data has at most 33554432 bytes, and then stored if and only if it is valid UTF-8; a longer one does nothing |
| Clipboard.CountFollowsStores | agent/mac_kvm_sck.m:220-224 | The 32-bit count a `C` request reads is one more after a set that was stored, round from 0xFFFFFFFF to 0, and the same after one that was not |
| Clipboard.OthersAreIgnored | agent/mac_kvm_sck.m:215-250 | Any other operation is answered with nothing and changes nothing |
| Clipboard.AckMeansStored | agent/modules/message-box.js:874-898 | However a set's reads and writes go, the text is stored if and only if all of the request is read and it has at most 32 MiB, and is then acknowledged with `K` if that can be written; otherwise the pasteboard is as it was and nothing is acknowledged |
| Clipboard.Getter.OnData | agent/modules/message-box.js:951-962 | The promise is settled by the first chunk that completes the reply and never again |
| Clipboard.Getter.OnAll | agent/modules/message-box.js:951-962 | After any sequence of data events it holds what the whole reply says |
| Clipboard.SetThenGet | agent/modules/message-box.js:934-968 | For every text of at most 32 MiB and any short reads, short writes and data events a set followed by a get returns the text up to its first NUL, so the text itself if and only if it has none |
| Clipboard.EmptyIsServed | agent/mac_kvm_sck.m:164-178 | An empty pasteboard is read as the empty text |
| AgentCopy.CopyFindsItsDaemon | agent/mac_kvm.c:2158-2178 | The daemon's path is recovered from the path of the copy made for it, and a copy never makes a copy of itself |
| AgentCopy.CopyIsBesideDaemon | agent/mac_kvm.c:2549-2553 | For a daemon in any directory that is not some `.../kvm`, the copy is `kvm/` and the same name below that directory, and from both paths the daemon's is found |
| AgentCopy.DaemonKeepsThisCopyIff | agent/mac_kvm.c:2169-2177 | The daemon a copy finds keeps that very copy if and only if it is not itself in a directory called `kvm` |
| AgentCopy.CompareContents | agent/mac_kvm.c:2402-2420 | The chunked comparison reports identical exactly if both files are seen in the same pieces and agree as far as they are seen |
| AgentCopy.PiecesAreChunks | agent/mac_kvm.c:2410-2417 | Without read errors a file is seen in pieces of 65536 bytes and a shorter last one |
| AgentCopy.CleanComparisonIsEquality | agent/mac_kvm.c:2402-2420 | Without read errors that is equality |
| AgentCopy.ReportIsRightIff | agent/mac_kvm.c:2411-2417 | For any read errors: files of a given size reported identical always are if and only if the errors make the two loops see different pieces, or no empty-handed error comes before the end could have been reached |
| AgentCopy.ErrorsLookLikeEquality | agent/mac_kvm.c:2413-2417 | With a read error in both at one place, files that differ are reported identical |
| AgentCopy.Disk.CopyOut | agent/mac_kvm.c:2567-2569 | The copying loop succeeds exactly if no write fell short, and has then copied what the reads let it see |
| AgentCopy.Disk.Sync | agent/mac_kvm.c:2533-2628 | The files after a run are the specified ones; in every state it passes through the copy is there, as it was or as it is going to be, and no file but it and its temporary neighbour has changed; after a refresh the wait's result says exactly whether an agent-free look was had |
| AgentCopy.WhatIsLeft | agent/mac_kvm.c:2535-2611 | A run that is not root's, or finds no copy, changes nothing; one that finds the copy out of step leaves no temporary file, and a copy that is the old one or executable exactly if its mode could be set |
| AgentCopy.RenamesUnderRunningAgents | agent/mac_kvm.c:2603-2611 | A refresh puts the copy in place though all forty looks find agents running, and no outcome of the looks changes any file |
| AgentCopy.CleanStatesAreWhole | agent/mac_kvm.c:2533-2628 | Stopped anywhere, a run without read errors leaves the copy's old bytes or all of the daemon's |
| AgentCopy.CleanRun | agent/mac_kvm.c:2556-2611 | Without read errors a run leaves the copy as it was or makes it the daemon's bytes, the latter exactly if it had them or nothing checked failed; then the next run changes nothing |
| AgentCopy.ReadableIff | agent/mac_kvm.c:2568 | A reading loop sees all of a file if and only if no read that fails with nothing comes before the capacities of the earlier reads add up to the file's size |
| AgentCopy.InstalledWholeIff | agent/mac_kvm.c:2568-2572 | A refresh installs all of the daemon if and only if that holds of its reads |
| AgentCopy.EmptiedByAReadError | agent/mac_kvm.c:2568-2572 | An error on the first read installs an empty copy and reports success |
| AgentCopy.RepairedByACleanRun | agent/mac_kvm.c:2556-2611 | Whatever an earlier run did and wherever it was stopped, one without read errors in which nothing fails makes the copy the daemon's bytes |

## Left out

- Session.TakeoverSafe: an eviction is one step, although between `close` and the assignment the descriptor briefly denotes nothing; the main loop's writes to the connection, and descriptor numbers the system reuses, are not modelled.
- Rfb.MirrorAlways: for key codes below 0x100, or without a Shift code in the low byte; for the others it fails, by Rfb.KeyKeepsMirrorIff.
- Relay.FrameLength: the sum of 8 and a jumbo length above 0x7FFFFFF7 overflows an `int` in the code; it is computed exactly here.
- Relay.RelayForwardsFrames: calling a handler again while it consumes something is the pipe manager's part, which is not in the repository.
- AgentCopy.Disk.Sync: stopping the process, not the machine: buffered and unflushed writes are taken to reach the file. Paths are shorter than the system's limit, different paths are different files, and ownership and file flags are not modelled.
- Geometry.SelectionChangeNeverMissed: sizes and origins are integers, displays are of positive size, disjoint and have distinct ids.
- Capture.State.Turn: a listed display that has gone is taken to have empty bounds and no mode, and the layout not to change between the questions of one turn.
- The values of the message types and the Windows virtual keys and mouse flags are not in the repository's sources: the usual ones are used, and those of jumbo and announcement messages are parameters.
- The viewer's own encoder is not in the repository: character and wheel frames, which the harness does not send, are written as the handler's layout has them (`agent/mac_kvm.c:720-722`, `agent/mac_kvm.c:735-746`).
- The session state, clocks, what the event source has accumulated, and whether an event could be created are inputs.
- Clipboard texts are sequences of Unicode characters: a script string with an unpaired surrogate is not one.
- Casts of coordinates beyond the range of the target type, in the RFB client.
- Screen capture itself, tiles and their compression, the frame stream to the viewer: system calls and code that is not in the repository. In the composite, a display that yields no image is simply not drawn.
- The login-window keyboard and mouse through IOKit, the HID bridge and virtual devices: disabled in the code.
- DES and the password file: encryption is an arbitrary function of a block.
- Key translation tables, except for which symbols are Shift symbols.
- Lock keys' state messages, compression, pause and frame-rate messages: they pass through the framing as calls and do nothing to what is modelled.
- The input thread reading standard input, and the process's start, listening and logging.
- Permission dialogs, launch services, property-list repair, the one-off RFB probe: user interface and shell calls.
- The rest of the message-box and clipboard modules: platform dispatch, child processes and unreachable code.
- Installers, packaging, signing and server scripts.
