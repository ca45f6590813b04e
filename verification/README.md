# Verified models of a Wayland input-method host

The host sits between a Wayland compositor and text-input engines.  This project
models the parts of it that carry state, and proves what they promise over all
inputs and all runs.  `dafny verify dfyconfig.toml` checks everything.

| files | what they model |
|---|---|
| `UdsFraming`, `UdsServer` | the length-prefixed stream of the control socket: a fixed read buffer, a partial-write queue, the request loop |
| `JsonText`, `JsonSpan`, `JsonBuilder`, `JsonRpc` | escaping, scanning and building of JSON text |
| `GlyphPack`, `GlyphAtlas` | the shelf packer and the open-addressing table of the glyph atlas |
| `FocusController`, `FocusLifecycle`, `FocusTheorems`, `FocusTicks`, `FocusOutcome`, `FocusFrontend` | focus, keyboard grab and keymap fencing: reduce, observe, diff, apply, in the event loop, with reconnect |
| `CandidateText`, `PanelLayoutCache`, `PanelGeometry`, `PanelGeometryTheorems`, `PanelContent`, `PanelRender`, `Panel`, `PanelRetire` | the candidate panel: cache of shaped text, arrangement, incremental rendering, deferred freeing |
| `KeyArbiter`, `KeyArbiterInPlace`, `StuckKeys` | buffering of modifier chords, and the keys it leaves held |
| `Watchdog`, `WatchdogProgress` | the two-thread progress watchdog |
| `Notifier` | the notification rate limiter |
| `Common` | what several of them share |

Code that updates objects in place is modelled by classes whose methods update
fields and arrays; each is proved equal to a function on values, and the theorems
are about those functions and their runs.  The two threads of the watchdog are a
transition system over their atomic steps.  Fields that record history
(`served`, `place`, `fate`, `stamps`, ...) only serve the statements.

## Where the code and its comments differ

The models follow the code.

- An activation without an engine gives no grab and no focus entry, although the
  comment calls focusing meaningful then (src/engine/focus_controller.c:83-88).
- Tearing down a broken grab runs the modifier reset, whose readiness check trips
  the fail-safe, so "broken recovery" stops the daemon (`FocusTicks.TeardownOfBrokenStops`).
- A wait that times out or is interrupted skips the pipeline and its facts are
  cleared at the next iteration (`FocusTicks.ActivationTakesEffectIff`).  The done
  flags are said to survive until they are reduced, but a second done event in the
  same iteration overwrites them.
- The atlas is only rebuilt after packer exhaustion, never for table load
  (src/ui/panel/glyph_atlas.c:94-116).
- The watchdog limit counts from the last heartbeat, not from stage entry.
- A frame may be announced with up to 1 MiB but only 8188 bytes can ever arrive
  (`UdsFraming.PayloadLimit`).

## What is false of the code, and when

- `"params"` extraction is exact whenever no string of the object ends in an escaped
  backslash (`JsonText.ParamsObjectExact`).  If the strings hold no quotation mark
  and no backslash is outside them, it is exact only then (`JsonSpan.ParamsExactIff`):
  otherwise the text is cut off or runs past the object (`JsonSpan.TruncatedExample`,
  `JsonSpan.BackslashOverrunExample`).  A quotation mark in a string can set the
  scanner right again (`JsonSpan.MendedExample`).
- The layouts of a panel's rows are alive exactly unless a render in another style
  failed for more than 16 candidates over a geometry with rows, and nothing has
  replaced that geometry since; renders that keep it then show freed layouts
  (`Panel.Panel.Run`, `Panel.StaleIff`, `Panel.StrandedExample`).
- The commit serial is the count of done events of the current input-method object
  exactly when none came before the last reconnect, since it is not reset with the
  object (`FocusTicks.SerialRightIff`, `FocusTicks.SerialWrongExample`).
- A horizontal panel's mode label leaves the padding exactly when no row is at
  least 3 pixels taller than it (`PanelGeometryTheorems.HorizontalFits`).
- A kept geometry differs from a recomputed one exactly when a text was cut to its
  buffer and equals the new one only there (`PanelRender.RenderAgreesIff`, `PanelRender.MistakenExample`).
- Equal keys may notify closer than the cooldown if the first call had none
  (`Notifier.UncountedExample`).
- A padded glyph extent that wraps 32 bits is placed (`GlyphPack.WrappedExtentIsPlaced`).
- A key let go of while a chord is buffered stays tracked as held after the chord
  completes exactly if it was held otherwise than as forwarded (an application
  shortcut, say), or if every such release met a full buffer (`StuckKeys.StuckOverRun`,
  `StuckKeys.ShortcutStuckExample`, `StuckKeys.StuckExample`).  If the chord is broken
  off instead, only the second case is left for a key not pressed again: the replay
  does not bring a lost release back (`StuckKeys.StuckAfterBreak`, `StuckKeys.BrokenStuckExample`).
- The move behind a served request has the length of what is left exactly unless
  answering closed the client, that is, unless an answer overflows the queue or a send
  fails; the loop then asks for 2^64 - 4 bytes (`UdsServer.Client.ProcessRead`,
  `UdsServer.MoveUnderflowExample`).
- Once its 32-bit tick wraps, a full cache evicts the entry it has just returned (`PanelLayoutCache.LookUpAcrossWrap`).

## Model

| member | source | states |
|---|---|---|
| `UdsFraming.Be32RoundTrip` | src/ipc/uds_server.c:191-226 | the length that the sender writes big-endian is the length the reader assembles |
| `UdsFraming.MostSignificantFirst` | src/ipc/uds_server.c:191-192 | the four length bytes are the base-256 digits of the length, the most significant first |
| `UdsFraming.DecodeAppend` | src/ipc/uds_server.c:218-262 | decoding stops where it has to wait: more bytes continue from the undecoded rest, and an oversized length is final |
| `UdsFraming.DecodeStream` | src/ipc/uds_server.c:182-262 | decoding a stream of encoded payloads gives exactly those payloads, then whatever follows |
| `UdsFraming.ChunkingIndependence` | src/ipc/uds_server.c:199-263 | for every split of the input into reads, the payloads served, the rest and the verdict on the length are those of the whole input |
| `UdsFraming.PrefixLeavesRoom` | src/ipc/uds_server.c:204-262 | after any prefix of a stream of payloads of at most 8188 bytes the read buffer has room |
| `UdsFraming.EveryPayloadIsServed` | src/ipc/uds_server.c:199-263 | payloads of at most 8188 bytes, split into reads in any way, are served exactly and in order, and recv never gets an empty space |
| `UdsFraming.LongFrameStalls` | src/ipc/uds_server.c:204-236 | a frame that does not fit the read buffer is never served, however it is delivered; the buffer only fills up |
| `UdsFraming.PayloadLimit` | src/ipc/uds_server.c:204-262 | a payload within the protocol limit can be received if and only if it has at most 8188 bytes |
| `UdsServer.Client.Close` | src/ipc/uds_server.c:131-145 | closing clears every buffer counter |
| `UdsServer.Client.Write` | src/ipc/uds_server.c:147-167 | one send of all that is queued: of it exactly the beginning that the kernel accepts goes on the wire and leaves the queue, nothing does when the send would block, and the client is closed if and only if the send fails |
| `UdsServer.Client.Enqueue` | src/ipc/uds_server.c:169-180 | appends the data, or closes the client if and only if the data overflow the 65536 bytes or the send that follows fails; the read state is untouched |
| `UdsServer.Client.SendFrame` | src/ipc/uds_server.c:182-197 | enqueues exactly length and payload; an oversized payload is dropped without closing; it closes if and only if one of the two pieces overflows the queue or its send fails |
| `UdsServer.Client.Answer` | src/ipc/uds_server.c:239-255 | one handler call per request and at most one frame in answer; it closes if and only if queuing that frame does |
| `UdsServer.Client.Shift` | src/ipc/uds_server.c:257-261 | the memmove keeps exactly the unread bytes |
| `UdsServer.Client.HaveRequest` | src/ipc/uds_server.c:220-236 | tells a complete frame, an incomplete one and an oversized length apart exactly |
| `UdsServer.Client.TakeRequest` | src/ipc/uds_server.c:238-261 | serves the first payload, leaves exactly the bytes after it, and closes if and only if the answers since the read, this one included, cannot all be queued; the cleared counters then say less than one request is left, so the move behind it would underflow |
| `UdsServer.Client.Drain` | src/ipc/uds_server.c:218-262 | the request loop serves exactly the decodable payloads of the buffer, in order, up to an oversized length, or up to the first answer that cannot be queued, where the length of its next move underflows |
| `UdsServer.Client.ProcessRead` | src/ipc/uds_server.c:199-263 | one recv on the buffered rest serves the payloads of their concatenation in order, keeps its rest, queues exactly the answers, and closes if and only if the read fails, the stream ends, a length is oversized, or answering overflows the queue or meets a send error; exactly in that last case the loop goes on to a move of 2^64 - 4 bytes |
| `UdsServer.MoveUnderflowExample` | src/ipc/uds_server.c:218-262 | an empty request with an answer of 65537 bytes leads to that move, whatever the kernel takes |
| `UdsServer.StalledIff` | src/ipc/uds_server.c:147-180 | if the kernel never takes anything, the client stays open if and only if all answers together fit the 65536 bytes |
| `UdsServer.PromptIff` | src/ipc/uds_server.c:147-197 | if it takes everything at once, the client stays open if and only if no answer is larger than the buffer but within the frame limit |
| `UdsServer.FittingAnswersStay` | src/ipc/uds_server.c:147-197 | without send errors, answers that fit behind what is queued never close the client, whatever the kernel takes |
| `UdsServer.PeerReads` | src/ipc/uds_server.c:182-197 | what is sent for any requests decodes, at the other end, to exactly the answers within the frame limit, in order, with nothing left over |
| `UdsServer.ServeStream` | src/ipc/uds_server.c:182-263 | over a whole connection whose sends do not fail and whose answers fit the write buffer, in any split and with any partial sends, the client stays open and the handler sees exactly the payloads in order; what was put on the wire is, of each offer in turn, the beginning that the kernel accepted, and with what is still queued the peer decodes it as exactly the answers |
| `JsonText.EscapeRoundTrip` | src/ipc/tip_json.c:264-307 | decoding what the escaper writes, by section 7 of RFC 8259, gives the string back |
| `JsonText.ScansEscaped` | src/ipc/tip_json.c:51-58 | the string scanner stops exactly at the closing quotation mark of any escaped string |
| `JsonText.FirstMemberRoundTrip` | src/ipc/tip_json.c:25-66 | extracting the first member of an object in any spacing returns the escaped text verbatim, which decodes to the value |
| `JsonText.StringMemberMeans` | src/ipc/tip_json.c:25-66 | on every text: what is returned is the text of the string behind the first occurrence of the name, up to the first quotation mark with an even number of backslashes before it; nothing is returned exactly for a missing name, a missing colon, or a value that is no terminated string |
| `JsonText.QuickAgrees` | src/ipc/tip_json.c:115-121 | the string rule of the params scanner agrees with JSON on one string if and only if its last character is not a backslash |
| `JsonText.AgreeIffNoFinalBackslash` | src/ipc/tip_json.c:110-132 | on every nested object the params scanner ends all strings where JSON does if and only if no string ends in an escaped backslash |
| `JsonText.ParamsObjectExact` | src/ipc/tip_json.c:88-132 | when the first params occurrence names an object without such a string, exactly that object is returned, whatever braces and quotation marks its strings hold |
| `JsonText.ParamsMeans` | src/ipc/tip_json.c:88-143 | on every text: absent means that the name does not occur, malformed that no colon follows its first occurrence; otherwise the value behind the colon is found, and a value that is no object reaches exactly to the next comma, closing brace or the end |
| `JsonSpan.NeverFindsBack` | src/ipc/tip_json.c:110-132 | once the scanner is inside a string where JSON is outside, it never ends the object where JSON does, provided no string holds a quotation mark |
| `JsonSpan.SpanExactIff` | src/ipc/tip_json.c:110-132 | for objects whose strings hold no quotation mark and that have no backslash outside them, in any text around: the span is exactly the object if and only if no string ends in an escaped backslash |
| `JsonSpan.ParamsExactIff` | src/ipc/tip_json.c:88-132 | so params extraction returns such an object exactly if and only if none of its strings ends so |
| `JsonSpan.TruncatedExample` | src/ipc/tip_json.c:110-132 | an object that is cut off inside its value |
| `JsonSpan.MendedExample` | src/ipc/tip_json.c:110-132 | an object with a quotation mark in a string that is read exactly although another string ends in an escaped backslash |
| `JsonBuilder.Builder.EnsureCap` | src/ipc/tip_json.c:242-251 | growing terminates, keeps the content and leaves room |
| `JsonBuilder.Builder.AppendRaw` | src/ipc/tip_json.c:253-262 | the content becomes the old content followed by the text, still terminated and within capacity |
| `JsonBuilder.Builder.AppendString` | src/ipc/tip_json.c:264-307 | appends the quoted escape of the whole string |
| `JsonBuilder.ReadString` | src/ipc/tip_json.c:25-66 | the cursor loops compute the extraction function the theorems are about |
| `JsonBuilder.ScanObject` | src/ipc/tip_json.c:110-132 | the brace loop computes the span function the theorems are about |
| `JsonBuilder.ReadParams` | src/ipc/tip_json.c:88-143 | absent, malformed, object and scalar params are told apart as the extraction function says |
| `JsonRpc.BuildNotify` | src/ipc/tip_json.c:395-409 | the text of a notification, member by member |
| `JsonRpc.SuffixSurvivesEscaping` | src/ipc/tip_json.c:264-307 | escaping neither makes nor breaks an occurrence of a beginning of the params name at the end of a text |
| `JsonRpc.NoEarlierParams` | src/ipc/tip_json.c:97-103 | in a notification the params name can occur before its member only as the end of the method text |
| `JsonRpc.NotifyRoundTrip` | src/ipc/tip_json.c:88-132 | the params object put into a notification is read back exactly, if and only if the method does not itself end in text that reads as the params name; then the message is rejected |
| `JsonRpc.MethodRoundTrip` | src/ipc/tip_json.c:395-409 | the method of a notification is read back as the string it was, and its version as 2.0, whatever method and params are |
| `JsonSpan.BackslashOverrun` | src/ipc/tip_json.c:115-121 | for every object whose last string alone ends in an escaped backslash the span runs past the object |
| `JsonSpan.BackslashOverrunExample` | src/ipc/tip_json.c:115-121 | the overrun on a concrete nine-character object |
| `GlyphPack.NextKeeps` | src/ui/panel/glyph_pack.c:3-26 | one request keeps all placed cells with their gutters disjoint, inside the square and behind the cursor, the new one included |
| `GlyphPack.PackStep` | src/ui/panel/glyph_pack.c:12-25 | a placed cell with its gutter is clear of every earlier cell, which stays behind the cursor |
| `GlyphPack.CellsNeverOverlap` | src/ui/panel/glyph_pack.c:3-26 | between two resets all placed cells with their gutters are pairwise disjoint and inside the square |
| `GlyphPack.FreshPlacesWhatFits` | src/ui/panel/glyph_pack.c:7-25 | on a fresh packer a cell is placed exactly when it fits the empty square |
| `GlyphPack.EqualCellsFillTheSquare` | src/ui/panel/glyph_pack.c:3-26 | requests of one size fill the square completely: as many cells are placed as columns times rows fit, the i-th at column i mod columns and row i div columns, and only then is one refused |
| `GlyphPack.WrappedExtentIsPlaced` | src/ui/panel/glyph_pack.c:9 | a padded extent that wraps 32 bits is placed although it does not fit |
| `GlyphPack.WrappedExtentExample` | src/ui/panel/glyph_pack.c:9 | the same in figures |
| `GlyphAtlas.EmptySlotMeansAbsent` | src/ui/panel/glyph_atlas.c:152-160 | an empty slot on the probe path proves the key absent |
| `GlyphAtlas.KeyTells` | src/ui/panel/glyph_atlas.c:147 | the key tells font and glyph apart, so no two glyphs share a slot |
| `GlyphAtlas.FullRoundMeansFull` | src/ui/panel/glyph_atlas.c:155-160 | a probe that went all the way round proves the table full and the key absent |
| `GlyphAtlas.InsertKeepsTable` | src/ui/panel/glyph_atlas.c:162-212 | writing the key where the probe stopped keeps keys unique and probe paths without holes, and extends the map by that key alone |
| `GlyphAtlas.PackKeepsCells` | src/ui/panel/glyph_atlas.c:174-189 | packing a bitmap leaves the cells of all drawable slots valid and clear of the new one |
| `GlyphAtlas.DrawableCellsDisjoint` | src/ui/panel/glyph_atlas.c:174-189 | no two drawable slots share a pixel, and every sub-rectangle fits 16 bits |
| `GlyphAtlas.Atlas.Ensure` | src/ui/panel/glyph_atlas.c:36-65 | builds an empty table and packer on first use and otherwise changes nothing |
| `GlyphAtlas.Atlas.Reset` | src/ui/panel/glyph_atlas.c:81-92 | drops everything and counts a rebuild |
| `GlyphAtlas.Atlas.Reclaim` | src/ui/panel/glyph_atlas.c:94-116 | rebuilds exactly when the packer was exhausted |
| `GlyphAtlas.Atlas.Probe` | src/ui/panel/glyph_atlas.c:148-160 | terminates with the slot of the key, the insertion slot of an absent key, or a full table |
| `GlyphAtlas.Atlas.Rasterise` | src/ui/panel/glyph_atlas.c:162-207 | the new slot holds the bearings of the bitmap, and its size and packed place exactly when it was packed and uploaded; exhaustion is flagged exactly for a refused cell whose 32-bit padded extent fits the image; the new cell is clear of all others until an extent that wraps is let through |
| `GlyphAtlas.Atlas.Get` | src/ui/panel/glyph_atlas.c:143-213 | a refinement of a map: hit if and only if present, a miss adds exactly that key, whose slot holds bearings, size and place of its bitmap, nothing comes back only without image or from a full table; the live count is the number of occupied slots, and cells stay disjoint and inside as long as no extent that wraps was let through |
| `GlyphAtlas.RetryAfterReclaim` | src/ui/panel/glyph_atlas.c:94-213 | after a reclaim the refused glyph always gets its cell |
| `FocusController.ClassifierAgrees` | src/engine/focus_controller.c:54-196 | the event classifier and the reducer agree on batches without a hard boundary |
| `FocusTheorems.GenerationClosedForm` | src/wayland/focus_effects.c:229-232 | the 32-bit generation counter that skips 0, in closed form |
| `FocusTheorems.GenerationsCollide` | src/wayland/focus_effects.c:229-232 | two moments share a generation exactly when they are a multiple of 2^32 - 1 advances apart |
| `FocusTheorems.HandleKeeps` | src/wayland/input_method.c:323-457 | every input-method and grab event keeps the invariant of the lifecycle |
| `FocusTheorems.PipelineKeeps` | src/wayland/event_loop.c:105-126 | a tick restores the invariant: focus is where the desired state says, and the fence holds |
| `FocusTheorems.ReconnectKeeps` | src/wayland/frontend.c:341-404 | a reconnect keeps the invariant and leaves no keyboard |
| `FocusTheorems.RunKeeps` | src/wayland/event_loop.c:418-551 | the invariant of focus, log, generations and virtual keyboard holds after every run of the loop, of any length |
| `FocusTheorems.KeymapFence` | src/wayland/keyboard/bridge.c:150-505 | at every point of every run with fewer than 2^32 - 1 generations: with a keyboard and a READY virtual keyboard the keymap is of the active generation and arrived after this grab was created, and a grab that waits has a deadline |
| `FocusTheorems.FocusAlternates` | src/wayland/focus_effects.c:217-270 | over every run, skipped ticks included, focus entries and exits strictly alternate beginning with an entry, and the context is focused if and only if the previous desired grab is YES |
| `FocusTicks.ConvergesIffSettled` | src/wayland/focus_effects.c:187-280 | from every reachable state the next tick without new facts has an empty effect set if and only if a needed grab could be created and a virtual keyboard is there to take its keymap, or a broken one is tolerated while paused |
| `FocusTicks.ConvergesWithKeyboard` | src/wayland/focus_effects.c:187-280 | with a virtual keyboard and successful grab creation one tick always converges |
| `FocusTicks.ConvergesOnRuns` | src/wayland/event_loop.c:418-551 | the same equivalence at every tick of every run |
| `FocusTicks.BrokenStays` | src/wayland/keyboard/bridge.c:150-239 | without a virtual keyboard object a tick never leaves the state ABSENT or BROKEN |
| `FocusTicks.TeardownOfBrokenStops` | src/wayland/keyboard/bridge.c:290-321 | a tick stops the daemon exactly when it tears down a grab whose keymap path is broken |
| `FocusTicks.PauseKeepsGrab` | src/wayland/focus_effects.c:213-227 | a deactivation alone leaves the field but keeps grab, keymap and generation |
| `FocusTicks.HardBoundaryDropsGrab` | src/engine/focus_controller.c:80-134 | a suspend gap or lost connection drops the grab, leaves the field, resets all keys and advances the generation once |
| `FocusTicks.EffectOrder` | src/wayland/focus_effects.c:187-280 | every effect set is executed in the documented order, each step once and nothing else |
| `FocusOutcome.TickLog` | src/engine/focus_controller.c:115-177 | which steps a tick logs, told from the states before and after: the composition is discarded, the preedit blanked and committed whenever the field is left or an unwanted grab dropped, and only then; the other six steps have exact conditions too, and all come in the documented order |
| `FocusTicks.ReleaseOnce` | src/wayland/keyboard/bridge.c:420-457 | a second release of forwarded keys sends nothing |
| `FocusTicks.TickReleasesHeldKeysOnce` | src/wayland/focus_effects.c:131-240 | a tick that leaves the focus or drops the grab releases exactly the keys tracked as held, each once and ascending, although the code releases up to three times; any other tick releases none |
| `FocusOutcome.KeysLetGo` | src/wayland/keyboard/bridge.c:420-457 | a tick that leaves the field or drops the grab releases exactly the keys forwarded, passed through or sent as a shortcut, once each and ascending; any other tick none |
| `FocusTicks.FactsCountDones` | src/wayland/input_method.c:413-451 | which activate facts survive is a matter of the session and of how many done events followed the last activation, the first activation included |
| `FocusTicks.ActivationTakesEffectIff` | src/wayland/event_loop.c:418-512 | an activation takes effect if and only if its session exists or could be created, the wait delivered something, no resume gap was seen, an engine is there and fewer than two done events followed it in the iteration |
| `FocusOutcome.FactsCountDeactivations` | src/wayland/input_method.c:356-451 | which deactivate facts survive is a matter of how many done events with a session followed the last deactivation |
| `FocusOutcome.DeactivationTakesEffectIff` | src/wayland/event_loop.c:418-512 | a focused field is left for a pause if and only if the wait delivered something, no resume gap was seen, no activation stands, and a deactivation stands: none or one done event followed it |
| `FocusOutcome.WantedAfterIteration` | src/engine/focus_controller.c:61-113 | the grab wanted after any iteration from any state, told from the events received and the gaps seen |
| `FocusOutcome.ActivationRoutesKeys` | src/wayland/event_loop.c:105-126 | a tick with an activation, an engine and a grab that could be made focuses the context; the keymap of that grab makes the keyboard ready, and from then on keys are routed |
| `FocusOutcome.KeyTrackedIff` | src/wayland/keyboard/keyboard.c:331-420 | a key is routed and tracked exactly while the context is focused and the keymap of the grab is there |
| `FocusOutcome.EventsCount` | src/wayland/input_method.c:413-457 | every done event advances the serial by one, and an unavailable input method stops the daemon, whatever follows in the batch |
| `FocusOutcome.NoneOverdue` | src/wayland/event_loop.c:492-536 | after every wait that ends without a lost connection no grab outlives its keymap deadline while the daemon runs on, and at a key repeat no broken grab; nothing else stops the daemon there |
| `FocusOutcome.LossFences` | src/wayland/event_loop.c:409-474 | a connection lost while flushing or dispatching leaves no grab and no tracked key, advances the generation once, counts done events anew but keeps the serial, and stops the daemon if it was told to stop or could not reconnect |
| `FocusTicks.SerialRightIff` | src/wayland/input_method.c:296-316 | at every tick of every run the commit serial is the number of done events of the current input-method object if and only if none came before the last reconnect; then no commit precedes its first done event |
| `FocusTicks.SerialWrongExample` | src/wayland/input_method.c:296-316 | one done event and a reconnect leave serial 1 with an object that has sent none |
| `FocusFrontend.KeyTracker.Advance` | src/wayland/focus_effects.c:228-235 | the counter wraps past 0 and all tracked keys become idle |
| `FocusFrontend.KeyTracker.Reset` | src/wayland/keyboard/policy/tracker.c:10-15 | every tracked key becomes idle |
| `FocusFrontend.KeyTracker.MarkReleasedPending` | src/wayland/keyboard/policy/tracker.c:25-43 | exactly the held keys become released-pending, and their number is returned |
| `FocusFrontend.Frontend.ReleaseForwardedKeys` | src/wayland/keyboard/bridge.c:420-457 | one release per held key in ascending order, then all of them are marked |
| `FocusFrontend.Frontend.KeyboardCreate` | src/wayland/keyboard/keyboard.c:200-244 | a created grab belongs to a new generation with no tracked key; a failed one leaves no keyboard but has advanced the generation; without a keyboard proxy nothing is tracked anew |
| `FocusFrontend.Frontend.KeyboardDestroy` | src/wayland/keyboard/keyboard.c:246-264 | no grab, no timer, every key idle, and exactly the held keys released if a virtual keyboard can send |
| `FocusFrontend.Frontend.KeyboardPause` | src/wayland/keyboard/keyboard.c:275-300 | every key idle and exactly the held keys released, with grab and generation as they were |
| `FocusFrontend.Frontend.HardReset` | src/wayland/focus_effects.c:131-162 | no keyboard is left, the keys due are released once, and the daemon stops exactly if the virtual keyboard was broken |
| `FocusFrontend.Frontend.Pipeline` | src/wayland/event_loop.c:105-126 | a tick in place executes exactly the due steps in the documented order, told from the states before and after (composition, preedit and commit at leaving the field or dropping the grab, and so on); it keeps the invariant and leaves the context focused if and only if the desired grab is YES |
| `FocusFrontend.Frontend.Reconnect` | src/wayland/frontend.c:341-404 | no grab, no held key, one new generation, and the virtual keyboard of the new connection if one could be made; the invariant is kept and the daemon stops exactly when no attempt succeeds |
| `FocusFrontend.Frontend.Iterate` | src/wayland/event_loop.c:431-546 | one iteration, with every way in which the wait can end, keeps the invariant of the lifecycle and leaves exactly the grab wanted that its events ask for |
| `FocusFrontend.Frontend.Run` | src/wayland/event_loop.c:418-551 | over any run of the loop in place focus entries and exits alternate and the fence holds below the generation bound, of the objects themselves |
| `PanelLayoutCache.Oldest` | src/ui/panel/layout.c:148-152 | the victim scan ends at the last empty entry, or else at the first entry with the least tick |
| `PanelLayoutCache.WrapEvictsLatest` | src/ui/panel/layout.c:137-152 | once the 32-bit tick has wrapped, the entry just returned is the next victim of a full cache |
| `PanelLayoutCache.LookUpAcrossWrap` | src/ui/panel/layout.c:128-187 | two lookups across the wrap in a full cache: the second throws out the layouts that the first has just made |
| `PanelLayoutCache.OneHolder` | src/ui/panel/layout.c:154-187 | a shape is held by at most one entry, and a held shape was neither evicted nor freed |
| `CandidateText.IdentityTells` | src/ui/panel/layout.c:45-75 | label and text of a row are the caption or the decimal number of the row, and the text with any comment, each cut to its buffer, in their own fonts; without a text both are empty |
| `CandidateText.DigitsAreNumeral` | src/ui/panel/layout.c:61-66 | the number of a row is written in decimal digits without a leading zero |
| `PanelLayoutCache.LayoutCache.Scan` | src/ui/panel/layout.c:128-152 | finds the entry of the identity, or proves it missing and names the victim |
| `PanelLayoutCache.LayoutCache.Get` | src/ui/panel/layout.c:128-187 | a hit refreshes one tick and nothing else; a miss hands on exactly the shapes of the victim and fills it; entries stay distinct and right, and every shape ever made is in one entry, evicted once or freed once |
| `PanelLayoutCache.LayoutCache.Invalidate` | src/ui/panel/layout.c:112-124 | every held shape is freed, every other keeps its fate, all entries are empty |
| `PanelLayoutCache.Untouched` | src/ui/panel/layout.c:146-154 | with fewer rows than entries the victim is none of the entries used in this call |
| `PanelLayoutCache.LayoutCache.BorrowRows` | src/ui/panel/layout.c:394-415 | every row is what uncached shaping gives, label in the caption font and text with comment in the other, and unless the tick wraps all rows still borrow from live entries at the end |
| `PanelGeometryTheorems.VerticalFits` | src/ui/panel/layout.c:228-291 | vertical rows are stacked inside the padding with their text inside, the preedit fits above, and the divider is strictly between the last row and the mode label |
| `PanelGeometryTheorems.RowsWidthIsLeft` | src/ui/panel/layout.c:299-343 | the width accumulated for the panel is what the placing loop uses up |
| `PanelGeometryTheorems.HorizontalFits` | src/ui/panel/layout.c:293-346 | horizontal rows are side by side inside the padding with their text inside, the preedit fits above, the mode label is clear of both, and it is inside the bottom padding if and only if the tallest row is at least 3 pixels taller |
| `PanelGeometryTheorems.EverythingFits` | src/ui/panel/layout.c:358-433 | the same for every request, in both modes and for any nonnegative metrics |
| `PanelContent.LogicalPxIsLeast` | src/ui/panel/layout.c:216-219 | a physical length takes the least number of whole logical pixels that covers it at the scale |
| `PanelContent.FullShows` | src/ui/panel/layout.c:358-433 | every string of a request is shown in its place and font and in its measured size, the mode label only if the indicator is on |
| `PanelContent.FullVertical` | src/ui/panel/layout.c:228-291 | the vertical arrangement, exactly: rows one below the other without slack, labels in a common column as wide as the widest, texts behind it, all centred in the panel, which is as small as its parts and the minimum allow |
| `PanelContent.FullHorizontal` | src/ui/panel/layout.c:293-346 | the horizontal arrangement, exactly: rows side by side with their gaps, each text behind its label, the panel as high as its tallest row and as wide as its parts |
| `PanelGeometryTheorems.ModeOutsideWithoutRows` | src/ui/panel/layout.c:338-341 | a horizontal panel without candidates draws its mode label past the bottom padding |
| `PanelGeometryTheorems.UpdateIsFullIff` | src/ui/panel/layout.c:435-481 | an incremental update equals full recomputation if and only if the preedit did not come or go or nothing is below it |
| `PanelGeometryTheorems.UpdateIsFull` | src/ui/panel/layout.c:435-481 | when nonempty text has positive height the incremental update always equals full recomputation |
| `PanelRender.RenderedIsFull` | src/ui/panel/panel.c:187-246 | whichever path a render takes, the geometry is the full geometry of some request |
| `PanelRender.ClassifyMeans` | src/ui/panel/panel.c:71-115 | what a render takes for changed, told from the last request and the new one: a style, else the candidates, else preedit or mode label as far as their buffers show, else nothing |
| `PanelRender.SameRequestKeeps` | src/ui/panel/panel.c:71-115 | the same request again keeps the geometry if its texts fit their buffers |
| `PanelRender.RenderAgreesIff` | src/ui/panel/panel.c:71-246 | the geometry after a render is the full geometry of the new request, at a scale within the tolerance, if and only if the request was not mistaken for a truncated older text |
| `PanelRender.ShortTextsAgree` | src/ui/panel/panel.c:71-246 | with a preedit below 256 and a mode label below 128 bytes it always is |
| `PanelRender.MistakenExample` | src/ui/panel/panel.c:107-112 | one byte dropped from a preedit of 256 bytes goes unnoticed |
| `PanelRender.Snapshot.PositionVertical` | src/ui/panel/layout.c:228-291 | the measuring and placing loops give the vertical arrangement |
| `PanelRender.Snapshot.PositionHorizontal` | src/ui/panel/layout.c:293-346 | the measuring and placing loops give the horizontal arrangement |
| `Panel.Panel.Compute` | src/ui/panel/layout.c:358-433 | computation through the cache gives the full geometry, with every string of the request in its place, font and measured size; it refuses exactly more than 16 candidates, and unless the tick has wrapped the cache holds the layouts of every row |
| `Panel.Panel.Update` | src/ui/panel/layout.c:435-481 | fails exactly when the full geometry of the changed request has another preedit or mode label size; otherwise gives that full geometry, borrowing the same layouts |
| `Panel.Panel.Render` | src/ui/panel/panel.c:162-246 | fails exactly for more than 16 candidates where the rows cannot be kept; the old geometry then stays, and if that makes its rows stale, their layouts have all been freed, unless the tick had wrapped |
| `Panel.StaleIff` | src/ui/panel/panel.c:187-246 | over every run of renders, hides and configuration changes the rows are stale if and only if a render in another style failed over a geometry with rows and nothing has replaced it since |
| `Panel.Panel.Run` | src/ui/panel/panel.c:151-246 | over every such run of the panel itself: unless the tick has wrapped the cache holds the layouts of all rows if and only if none were stranded so, and of stranded rows it holds none |
| `Panel.StrandedExample` | src/ui/panel/panel.c:187-246 | one candidate, seventeen in another theme, the one again: the render succeeds and shows freed layouts |
| `Panel.ExampleIsStale` | src/ui/panel/panel.c:187-246 | the run of states behind it, which ends with stale rows on show |
| `PanelRetire.PresentFrees` | src/ui/panel/surface.c:569-574 | the slot a successful present turns to holds exactly what was retired three presents ago |
| `PanelRetire.RetireRing.Drain` | src/ui/panel/surface.c:189-194 | every pointer of the slot is freed, each exactly once, and no other |
| `PanelRetire.RetireRing.MakeRoom` | src/ui/panel/surface.c:157-186 | a slot at 256 is drained behind a device wait; a full smaller one grows, up to 256 |
| `PanelRetire.RetireRing.Retire` | src/ui/panel/surface.c:157-221 | the pointer is parked, or freed at once exactly when nothing is on screen or memory is short; others are freed only from a slot at the limit, behind a device wait |
| `PanelRetire.RetireRing.Present` | src/ui/panel/surface.c:538-581 | a successful present frees exactly what was retired three presents ago; a failed one frees nothing |
| `PanelRetire.RetireRing.DrainFenced` | src/ui/panel/surface.c:223-230 | behind a device wait everything parked is freed, once |
| `PanelRetire.RetireRing.Destroy` | src/ui/panel/surface.c:707-712 | the device idles first, then everything parked is freed, once |
| `PanelRetire.RetireRing.RunAndDestroy` | src/ui/panel/surface.c:157-230 | over every run up to destruction each retired pointer is freed exactly once, never before three later presents unless the device idled or nothing was on screen |
| `KeyArbiter.StartsWithExactChord` | src/wayland/keyboard/arbiter.c:149-164 | buffering starts exactly with a chord key while the held modifiers are the chord |
| `KeyArbiter.SelectSettled` | src/wayland/keyboard/arbiter.c:48-69 | replaying appends the held events, in order, to those passed before |
| `KeyArbiter.Conservation` | src/wayland/keyboard/arbiter.c:31-287 | over every run each input was passed, discarded, is buffered, or was a release that was lost; order and content are kept; no press is lost and no press but of a chord modifier is swallowed; buffering if and only if the buffer is nonempty |
| `KeyArbiter.LostIff` | src/wayland/keyboard/arbiter.c:31-46 | an event is lost exactly if it is a release that goes on with a chord while eight events are buffered |
| `KeyArbiter.SwitchOnlyByChord` | src/wayland/keyboard/arbiter.c:207-287 | the language is switched exactly by the release that lets go of the last chord modifier while buffering, and only if earlier exactly the chord was held and nothing broke it off since |
| `KeyArbiter.SwitchMeans` | src/wayland/keyboard/arbiter.c:207-287 | over every run a switch happens only at a release that leaves no chord modifier held, after a press with exactly the chord held, with nothing between but presses of chord modifiers and releases while no other modifier is held |
| `KeyArbiter.ChordSwitches` | src/wayland/keyboard/arbiter.c:207-287 | and such a press, up to six events of that kind and such a release do switch, once, and pass nothing on |
| `KeyArbiter.OrphansReleasedOnce` | src/wayland/keyboard/arbiter.c:77-99 | on consume exactly the forwarded keys with a buffered release get one release each and become idle; all others are unchanged |
| `KeyArbiter.StuckIff` | src/wayland/keyboard/arbiter.c:31-287 | when the chord completes, a forwarded key stays forwarded if and only if its release is neither buffered nor the completing event, or that event met a full buffer |
| `StuckKeys.StuckOverRun` | src/wayland/keyboard/arbiter.c:77-142 | over every run: when a chord completes, a key let go of since buffering began stays tracked as held if and only if it was held otherwise than as forwarded, or every such release met a full buffer |
| `StuckKeys.StuckExample` | src/wayland/keyboard/arbiter.c:31-287 | hold Ctrl, tap Shift four times, let go of Ctrl: the release is lost and the key stays forwarded |
| `StuckKeys.ShortcutStuckExample` | src/wayland/keyboard/arbiter.c:77-142 | Ctrl, a letter and Shift down, then letter, Shift and Ctrl up: nothing is lost, the language is switched, and the letter stays tracked as an application shortcut without a release |
| `StuckKeys.StuckAfterBreak` | src/wayland/keyboard/arbiter.c:48-287 | over every run, with a router that touches only the key of its event and lets go of released keys: when a chord is broken off, a key whose last input since buffering began is a release is still held only if that release was lost, and one not pressed since is still held if and only if it was held and all its releases since were lost |
| `StuckKeys.BrokenStuckExample` | src/wayland/keyboard/arbiter.c:31-287 | a release lost with eight events buffered is not brought back when the next key breaks the chord off |
| `KeyArbiterInPlace.Arbiter.Push` | src/wayland/keyboard/arbiter.c:31-46 | appends the event, or drops it when eight are buffered |
| `KeyArbiterInPlace.Arbiter.Replay` | src/wayland/keyboard/arbiter.c:48-63 | all buffered events go downstream in order |
| `KeyArbiterInPlace.Arbiter.ReleaseOrphanedKeys` | src/wayland/keyboard/arbiter.c:77-99 | the loop over the buffer gives the function the theorems are about |
| `KeyArbiterInPlace.Arbiter.Consume` | src/wayland/keyboard/arbiter.c:101-142 | exactly the forwarded keys with a buffered release become idle, no event stays held, and every input stays accounted for |
| `KeyArbiterInPlace.Arbiter.Reset` | src/wayland/keyboard/arbiter.c:202-205 | no event stays held, and every input stays accounted for |
| `KeyArbiterInPlace.Arbiter.Press` | src/wayland/keyboard/arbiter.c:207-246 | a press is never lost, and every input stays accounted for |
| `KeyArbiterInPlace.Arbiter.Release` | src/wayland/keyboard/arbiter.c:248-287 | a release is lost if and only if it goes on with a chord while eight events are buffered, and every input stays accounted for |
| `KeyArbiterInPlace.Arbiter.HandleAll` | src/wayland/keyboard/arbiter.c:207-287 | from a fresh arbiter on, every input to the object is accounted for |
| `Watchdog.RunKeeps` | src/wayland/watchdog.c:40-201 | the invariant of lock, flags, stamps and samples holds under every interleaving |
| `Watchdog.KillIsJustified` | src/wayland/watchdog.c:97-160 | a kill happens only while armed and not stopping, after two samples that agree on a work stage, heartbeat and stage stamp, with the heartbeat at least 3000 ms old; no later stage stamp was stored between the two readings |
| `Watchdog.NoLostWakeup` | src/wayland/watchdog.c:60-108 | the thread never waits without a pending signal while armed or stop is set, except in the instant before the main loop signals |
| `Watchdog.FlagsStableUnderLock` | src/wayland/watchdog.c:60-68 | neither flag changes while the thread holds the lock |
| `Watchdog.StuckIsKilledIff` | src/wayland/watchdog.c:122-155 | a sample in a work stage that finds everything unchanged kills if and only if the 32-bit age of the heartbeat has reached 3000 ms |
| `WatchdogProgress.HangIsKilled` | src/wayland/watchdog.c:89-160 | over every run: once the main loop hangs, armed, in a work stage with a 32-bit heartbeat age of 3000 ms or more that stays so, at most 25 moves of the thread kill the process, wherever the thread was |
| `WatchdogProgress.StopEnds` | src/wayland/watchdog.c:97-165 | once told to stop and left alone, the thread ends within 6 of its moves |
| `WatchdogProgress.CallsDo` | src/wayland/watchdog.c:40-68 | each call of the main loop, run to its end, leaves heartbeat, stage, stamp and flags as its name says |
| `Notifier.RingRefinesReference` | src/notify/notifications.c:47-79 | with at most 16 keys of at most 95 bytes the ring limits exactly what a memory of all keys would limit |
| `Notifier.RingRepresents` | src/notify/notifications.c:57-77 | no key is evicted, keys stay distinct, and every entry holds the last time its key went through |
| `Notifier.LimitedIff` | src/notify/notifications.c:47-79 | within the capacity of the ring a request is limited if and only if it has a key and a cooldown, its key went through before, and the last time was at or before now and less than its own cooldown ago |
| `Notifier.Spaced` | src/notify/notifications.c:57-69 | with a monotone clock two notifications of a key that both went through are at least the cooldown of the second apart, provided the first had a cooldown |
| `Notifier.UncountedExample` | src/notify/notifications.c:52-54 | a first call with cooldown 0 is not remembered |
| `Notifier.LongKeysNeverLimited` | src/notify/notifications.c:71-74 | a key of 96 bytes or more is never limited |
| `Notifier.RateLimiter.IsRateLimited` | src/notify/notifications.c:47-79 | the loop over the ring gives verdict and new ring of the specification |
| `Notifier.RateLimiter.Serve` | src/notify/notifications.c:47-79 | over any run within its capacity the object gives the verdicts of the reference |

## Left out

- UdsServer.Client.ProcessRead: stops where answering closed the client inside the request loop (`ClosedInLoop`): it states the length of the move that follows in C, not what that move does to memory.
- UdsServer.Client.TakeRequest: returns there instead of moving the buffer.
- UdsServer.Client.Drain: returns there instead of going on.
- UdsServer.Client.Answer: an allocation failure for the request copy, which skips the handler, is not modelled.
- GlyphAtlas.Atlas.Get: sizes and bearings are not truncated to 16 bits; once an extent that wraps 32 bits was let through it promises nothing of the cells until the next rebuild.
- FocusTheorems.KeymapFence: holds for fewer than 2^32 - 1 key generations; `FocusTheorems.GenerationsCollide` says what happens beyond.
- FocusFrontend.Frontend.KeyboardCreate: timer and XKB objects, per-key generation stamps, modifier fields and the arbiter reset are not part of the lifecycle state.
- FocusTicks.TickReleasesHeldKeysOnce: keys that on_key passes straight through in a soft pause are not tracked, so one pressed then is not released when the grab is dropped; that passthrough is not modelled.
- FocusFrontend.Frontend.Handle: surrounding text, content type and preedit content are not modelled; the commit serial is unbounded; a routed key brings the router's outcome along.
- FocusFrontend.Frontend.Reconnect: the attempts of the backoff loop are one step with its outcome.
- PanelLayoutCache.LayoutCache.Get: shaping is assumed to succeed; a layout that could not be made would count as an empty entry.
- PanelLayoutCache.LayoutCache.BorrowRows: says nothing about live entries once the tick has wrapped.
- PanelRender.RenderAgreesIff: assumes that equal content signatures mean equal candidates, that the caption font follows from the fonts that are compared, and that nonempty text has height.
- Panel.Panel.Render: presentation and the selection index are not modelled, so a hide is told whether the panel is visible; a repeated request for the shown selection keeps the geometry like any kept one.
- Panel.Panel.Run: once a tick has wrapped it promises nothing for rows that were not stranded.
- PanelRetire.RetireRing.Present: the 64-bit epoch does not wrap; swapchain extents are not modelled.
- PanelRetire.RetireRing.Retire: the render device is taken to exist while something is on screen; without one the C code frees without waiting.
- KeyArbiter.Conservation: what the key router does with an event is any function on the tracked keys; releases to the application are attempts, and those of a pause are part of `FocusLifecycle`.
- StuckKeys.StuckOverRun: speaks of tracked keys; keys beyond the tracking table are not held by anything here.
- StuckKeys.StuckAfterBreak: assumes that the router touches only the tracked state of its event's key and lets go of released keys, as router.c does.
- Watchdog.KillIsJustified: the watchdog is a state machine on values, since its steps interleave; start and join are not steps.
- Floating point: coordinates and text metrics are reals.
- Sockets, epoll, Wayland, D-Bus, Vulkan, FreeType and text shaping are inputs, as are clocks and allocation results.
- Subscriptions and topic broadcast of the socket server, JSON-RPC methods, numbers and arrays in JSON: thin wrappers around what is modelled.
- Backoff delays, startup window, palettes, painting, tray, icons, configuration, CLI: no state worth an invariant.
