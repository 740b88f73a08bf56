# Verification of the herdr multiplexer core

Dafny models of five state-carrying components of the herdr terminal multiplexer, with proofs of
what they promise. Paths below are relative to the repository root.

- **Raw input framer** (`Bytes`, `Utf8`, `RawInput`, `Framer*`): cuts an arbitrarily split byte
  stream into key, paste, mouse and colour-reply chunks, and holds, discards or releases partial
  sequences when the input goes quiet. `Framer.Drain`, `Feed`, `Timeout` and `Run` are the
  transitions on framer states; the class performs them in place. Control strings follow section
  5.6 and CSI sequences section 5.4 of ECMA-48, UTF-8 section 4 of RFC 3629.
- **Default colours** (`TerminalTheme`): the reply parser and the printer it must agree with.
- **Kitty graphics cache** (`Kitty*`): one frame's placements become upload, display and delete
  commands while a cache tracks the host terminal. `KittyCache.Exec` is the host (Kitty terminal
  graphics protocol: transmitting, displaying, deleting images); `KittyWire.Read` is a terminal that
  reads the bytes. `KittyGeometry` models one axis of the crop, applied to both.
- **Tiling layout** (`Layout*`): trees of splits, the rectangles they assign, edits, navigation and
  resizing.
- **Message bus and event hub** (`Msg`, `MsgProperties`, `EventHub`): capped inboxes with cursors, a
  two-way group index, re-keying, and a bounded event buffer with polling subscribers.
- **Agent probing** (`Probe`): the timed acquisition window and the presence counter.

A class method is proved equal to a function on states; the theorems are about those functions, over
every input and every run. Five statements one might expect are false of the code; for each, the
exact condition under which it holds is proved:

- a mouse report cut by a timeout leaves a trace when a parameter carries a sign or is something the
  parser ignores (`FramerMouse.CutReportVanishesIffPlain`, `FramerLimits.SignedReportLeaks`);
- a placement that brings no data and collides with another image's id makes the cache lose track of
  the host (`KittyRefinement.PlaceItemExact`, `KittyRefinement.CollisionLosesTrack`);
- a frame is not always shown as a whole: an image relied on as cached may be deleted before its turn
  (`KittyFrame.FrameExact`, `KittyFrame.SharedImageMissesAFrame`); painting again repairs it
  (`KittyFrame.RepaintSettles`);
- a colour reply cut after 2 to 4 bytes leaks when a second timeout falls while certain hex digits wait
  to be discarded, and a mouse report cut at or after its introducer when a second one falls before its
  end (`FramerColorFate.ColorReplyFate`, `FramerMouseFate.MouseReportFate`, with
  `FramerLimits.ReplyCutTwiceLeaks` and `FramerLimits.ReportCutTwiceLeaks`);
- an event subscription can lose events although at most 512 are pushed between its polls, because
  one poll returns one event (`EventHub.SubscriptionExact`, `EventHub.OneAtATimeFallsBehind`).

Further lemmas show that hypotheses are needed: where a stream is cut does matter right after a lone ESC
was flushed (`FramerLimits.SplitsMatterAfterLoneEscape`) and past the budget of a mouse discard
(`FramerBudget.DiscardSplits`, exactly), navigation at the border of the area can find a pane of no width
(`LayoutNavigation.ZeroWidthPaneMisleads`), and a resize can move a border back to the clamp
(`LayoutEdits.ClampMovesBack`).

Check everything with `dafny verify dfyconfig.toml`.

## Model

| member | source | states |
|---|---|---|
| `RawInput.ExtractExtends` | __references/herdr/src/raw_input.rs:626-674 | an event recognised at the front of a buffer, and the bytes it takes, stay the same whatever input is appended |
| `RawInput.CompleteEscapeExtends` | __references/herdr/src/raw_input.rs:764-809 | the length found for a complete escape sequence is final, through any nesting of ESC, CSI, SGR mouse and control-string introducers |
| `RawInput.TerminatorExtends` | __references/herdr/src/raw_input.rs:892-927 | the terminator of a control string stays the first one when input is appended, also where ST and BEL compete |
| `RawInput.PasteEndAfterStart` | __references/herdr/src/raw_input.rs:626-640 | the end marker of a paste can only be found behind its start marker, so the content slice is always legal |
| `Framer.DrainStep` | __references/herdr/src/raw_input.rs:369-424 | every repetition of the drain loop shortens the buffer, or leaves its length and ends a discard: the loop terminates |
| `Framer.RawInputByteFramer.Push` | __references/herdr/src/raw_input.rs:194-197 | a push returns the chunks and leaves all seven fields as the specified drain of buffer plus data does |
| `Framer.RawInputByteFramer.DrainRound` | __references/herdr/src/raw_input.rs:369-424 | one repetition of the loop performs exactly the specified step, including the orphaned mouse tail and the reply window |
| `Framer.RawInputByteFramer.DrainAvailableChunks` | __references/herdr/src/raw_input.rs:369-424 | the loop takes every complete chunk off the buffer, in order, as the recursive drain does |
| `Framer.RawInputByteFramer.FlushTimeout` | __references/herdr/src/raw_input.rs:229-367 | a timeout drains and then holds, discards or releases what is left, as specified case by case |
| `Framer.RawInputByteFramer.SettlePending` | __references/herdr/src/raw_input.rs:229-367 | the timeout's decision for a drained buffer: discard families, budgets, held pastes and replies |
| `Framer.RawInputByteFramer.ReleasePending` | __references/herdr/src/raw_input.rs:295-361 | the last cases of a timeout: held or released ESC, whole key, partial scalar, junk |
| `Framer.RawInputByteFramer.DiscardOrphanedSgrMouseTail` | __references/herdr/src/raw_input.rs:864-890 | the scanning loop drops report parameters through the final byte within the 128-byte budget and says whether the discard is over |
| `Framer.RawInputByteFramer.DiscardCompleteOrphanedSgrMouseTail` | __references/herdr/src/raw_input.rs:829-849 | a whole report minus its ESC, of at most 32 bytes, is dropped, and nothing else |
| `Framer.RawInputByteFramer.HostColorQuerySent` | __references/herdr/src/raw_input.rs:201-204 | a query opens the window for two replies and forgets a held ESC |
| `Framer.RawInputByteFramer.constructor` | __references/herdr/src/raw_input.rs:180-192 | a new framer is in the fresh state |
| `FramerSplit.DrainSplits` | __references/herdr/src/raw_input.rs:369-424 | draining what has arrived and then the rest equals draining everything at once |
| `FramerSplit.SplitInvariance` | __references/herdr/src/raw_input.rs:194-197 | any sequence of pushes gives the chunks and the final state of one push of the whole; for every state with no lone ESC just flushed and no mouse discard, so for every never-flushed framer |
| `FramerSplit.SplitsAgree` | __references/herdr/src/raw_input.rs:194-197 | two ways of cutting the same stream into pushes cannot be told apart |
| `FramerLimits.SplitsMatterAfterLoneEscape` | __references/herdr/src/raw_input.rs:369-395 | concrete input for which splitting does matter once a lone ESC was flushed: the condition of split invariance is needed |
| `FramerSafety.Conservation` | __references/herdr/src/raw_input.rs:229-424 | in every interleaving of pushes, timeouts and queries, emitted bytes followed by the buffer are a subsequence of the bytes pushed |
| `FramerSafety.LosslessUntilTimeout` | __references/herdr/src/raw_input.rs:369-424 | while nothing timed out, emitted bytes followed by the buffer are exactly the bytes pushed |
| `FramerSafety.DiscardStaysBounded` | __references/herdr/src/raw_input.rs:864-890 | in every reachable state with a discard in progress at most 128 bytes are counted against it |
| `FramerSafety.FlushResidue` | __references/herdr/src/raw_input.rs:229-367 | after a timeout from any state the buffer is empty, an open paste, an open colour reply, a held ESC with replies awaited, an ESC in discard mode, or a partial scalar with or without ESC |
| `FramerSafety.LoneEscapeAfterDrain` | __references/herdr/src/raw_input.rs:384-395 | the lone-ESC mark survives a drain only in front of a mouse tail that may still complete |
| `FramerText.TextSurvives` | __references/herdr/src/raw_input.rs:345-361 | text whose scalars are keys comes out scalar by scalar under any pushes, timeouts and queries, from any state at rest, leaving the buffer empty |
| `FramerText.Utf8TextSurvives` | __references/herdr/src/raw_input.rs:670-673 | any valid UTF-8 bytes without ESC come out whole, one chunk per scalar, from a fresh framer, under any interleaving |
| `Utf8.IncompleteMeansExtendable` | __references/herdr/src/raw_input.rs:743-748 | the incomplete-scalar test holds exactly of the byte strings some non-empty continuation completes to one scalar (section 4 of RFC 3629) |
| `Utf8.Scalars` | __references/herdr/src/raw_input.rs:732-741 | valid text splits into scalars that concatenate to it |
| `FramerColor.ColorReplySurvives` | __references/herdr/src/raw_input.rs:295-332 | a printed colour reply under any pushes, timeouts and queries comes out as one chunk decoding to its kind and colour if and only if no timeout falls after 2 to 4 bytes and at most one, with a reply awaited, falls right after the ESC |
| `FramerColor.CutColorReplyVanishes` | __references/herdr/src/raw_input.rs:314-330 | one timeout after 2 to 4 bytes of a reply, and no further timeout before its end, suppresses all of it, and the input after it is framed as by a framer that never saw it, for any pieces |
| `FramerColorFate.ColorReplyFate` | __references/herdr/src/raw_input.rs:229-424 | over all pushes, timeouts and queries, a printed reply comes out as one chunk, leaves nothing, or leaks, each if and only if the positions of the timeouts say so; unless it leaks the framer is at rest afterwards |
| `FramerColorFate.GivesUpExactly` | __references/herdr/src/raw_input.rs:234-257 | a timeout gives up the discard of a printed reply exactly when the tail read since the last one holds one of the hex letters a, c, d, e, f, or the bytes counted exceed 128 |
| `FramerColorFate.PlausibleReplyTail` | __references/herdr/src/raw_input.rs:429-460 | the tail of a printed reply is plausible exactly when it holds none of those letters |
| `FramerLimits.ReplyCutTwiceLeaks` | __references/herdr/src/raw_input.rs:234-257 | concrete family: a reply cut after 2 to 4 bytes, with a second timeout once a hex letter a, c, d, e or f waits, leaks |
| `FramerColorFate.InputAfterReply` | __references/herdr/src/raw_input.rs:229-424 | whatever follows a reply that did not leak, in the same read or later, is framed as by the framer at rest |
| `FramerMouse.CutReportVanishesIffPlain` | __references/herdr/src/raw_input.rs:259-283 | a mouse report of at most 128 bytes cut by one timeout at or after its introducer, and by no other, vanishes, with later input framed cleanly, if and only if its parameters are digits and semicolons only |
| `FramerMouse.EscapeOnlyIffPlainAndShort` | __references/herdr/src/raw_input.rs:818-849 | a report cut by one timeout right after its ESC, and by no other, costs only that ESC if and only if its parameters are plain and its tail is at most 32 bytes |
| `FramerMouseFate.MouseReportFate` | __references/herdr/src/raw_input.rs:229-424 | over all pushes, timeouts and queries, a plain report of at most 128 bytes comes out as one chunk, leaves nothing, leaves only its ESC, or leaks, each if and only if the positions of the timeouts say so; unless it leaks the framer is at rest afterwards |
| `FramerLimits.ReportCutTwiceLeaks` | __references/herdr/src/raw_input.rs:234-244 | concrete family: a plain report cut behind its introducer, with a second timeout before its end, leaks |
| `FramerMouseFate.InputAfterReport` | __references/herdr/src/raw_input.rs:229-424 | whatever follows a report that did not leak, in the same read or later, is framed as by the framer at rest |
| `FramerLimits.SignedReportLeaks` | __references/herdr/src/raw_input.rs:944-973 | concrete report with a signed parameter: recognised whole, leaked when cut anywhere after its introducer |
| `FramerFollow.FollowRun` | __references/herdr/src/raw_input.rs:229-424 | whatever each push, timeout and query keeps between the framer and an account of how much of a string was read holds over every run |
| `FramerPaste.PasteSurvives` | __references/herdr/src/raw_input.rs:626-640 | over all pushes, timeouts and queries, a bracketed paste of valid text comes out as one chunk and nothing else, read as its content, if and only if no timeout falls after 2 to 5 bytes and at most one, with a reply awaited, right after its ESC |
| `FramerPaste.TextIsPaste` | __references/herdr/src/raw_input.rs:626-640 | every valid text whose first end marker is the one put behind it makes such a paste |
| `FramerPaste.InputAfterPaste` | __references/herdr/src/raw_input.rs:229-424 | whatever follows a paste that survived, in the same read or later, is framed as by the framer at rest |
| `FramerBudget.DiscardSplits` | __references/herdr/src/raw_input.rs:864-890 | while a mouse report is being discarded, splitting the input makes no difference if and only if the discard ends within its budget or nothing is read after the read that exceeds it |
| `FramerBudget.SplitsMatterPastTheBudget` | __references/herdr/src/raw_input.rs:864-890 | concrete family for which it does make a difference |
| `TerminalTheme.ColorReplyRoundTrip` | __references/herdr/src/terminal_theme.rs:55-78 | every reply the printer writes is read back as the same kind and colour |
| `TerminalTheme.RgbRoundTrip` | __references/herdr/src/terminal_theme.rs:87-111 | every printed colour value is read back as the same colour |
| `TerminalTheme.HexComponentNearest` | __references/herdr/src/terminal_theme.rs:113-123 | a component of one to four hex digits is rescaled to the nearest of 0 to 255, off by at most half a step |
| `KittyGeometry.CropStaysInside` | __references/herdr/src/kitty_graphics.rs:784-930 | a clip that succeeds covers exactly the grid cells inside the pane, at least one, and crops to a non-empty part of both the requested rectangle and the image, the forced single pixel included |
| `KittyGeometry.UnclippedShowsEverything` | __references/herdr/src/kitty_graphics.rs:784-930 | a placement wholly inside its pane at natural size is not cropped at all |
| `KittyUpload.EncodeKittyData` | __references/herdr/src/kitty_graphics.rs:984-998 | the chunk loop appends the packets of the data, control keys on the first packet only |
| `KittyUpload.PayloadsJoin` | __references/herdr/src/kitty_graphics.rs:984-998 | the payloads concatenate to the base64 of the whole data |
| `KittyUpload.PacketSizes` | __references/herdr/src/kitty_graphics.rs:984-998 | all packets but the last announce more and carry exactly 4096 characters; the last ends the upload and carries 1 to 4096 |
| `KittyUpload.Base64RoundTrip` | __references/herdr/src/kitty_graphics.rs:984-998 | base64 (section 4 of RFC 4648) decodes to the data for every byte string |
| `KittyUpload.UploadRoundTrip` | __references/herdr/src/kitty_graphics.rs:984-998 | a terminal reading the bytes of an upload, whatever follows, gets exactly the data sent and stops at its end |
| `KittyCache.HostGraphicsCache.EncodeGraphicsUpdate` | __references/herdr/src/kitty_graphics.rs:295-429 | the update leaves cache and commands as specified, for some order of the two hash iterations |
| `KittyCache.HostGraphicsCache.ReleaseSupersededSourceImage` | __references/herdr/src/kitty_graphics.rs:433-459 | the source is repointed and the image it left is deleted only when no source needs it, with its placements |
| `KittyCache.HostGraphicsCache.ClearBytes` | __references/herdr/src/kitty_graphics.rs:494-504 | clearing deletes every cached image once, empties the cache and forgets the view |
| `KittyCache.HostGraphicsCache.UpdateView` | __references/herdr/src/kitty_graphics.rs:506-512 | the view is remembered and compared with the one before |
| `KittyCache.HostGraphicsCache.EncodeLocalPaneGraphics` | __references/herdr/src/kitty_graphics.rs:178-234 | one paint clears everything unless graphics can be shown, and otherwise withholds the data of cached images, compares the view and updates |
| `KittyRefinement.PlaceItemExact` | __references/herdr/src/kitty_graphics.rs:330-416 | processing one placement keeps host and cache in agreement if and only if it is not an id collision without data |
| `KittyRefinement.CollisionLosesTrack` | __references/herdr/src/kitty_graphics.rs:357-371 | concrete family of frames: a new image takes the id of a cached one whose placement comes, its image being cached, without data; the update leaves the id in the cache and no such image on the host |
| `KittyRefinement.UpdateRefines` | __references/herdr/src/kitty_graphics.rs:295-429 | executing any update leaves the host with exactly the cached images and placements, every placement's image cached and every source pointing at a cached image, in every iteration order |
| `KittyRefinement.ClearRefines` | __references/herdr/src/kitty_graphics.rs:494-504 | executing a clear leaves the host empty |
| `KittyRefinement.RunRefines` | __references/herdr/src/kitty_graphics.rs:295-504 | over every run of updates and clears, host and cache agree and the cache stays consistent |
| `KittyWire.DisplayReads` | __references/herdr/src/kitty_graphics.rs:750-782 | the keys of a display command, zero-valued ones left out, are read back as the same placement |
| `KittyWire.CommandReads` | __references/herdr/src/kitty_graphics.rs:721-782 | a terminal reading the bytes of any one command, whatever follows, executes exactly that command |
| `KittyWire.BytesRefine` | __references/herdr/src/kitty_graphics.rs:295-504 | over every run, a terminal that reads the bytes sent understands all of them and then holds exactly what the cache lists |
| `KittySupply.UpdateExact` | __references/herdr/src/kitty_graphics.rs:295-429 | with no collisions, distinct keys and one image per source, exactly those visible placements are listed whose image came along, was brought by an earlier one, or stayed cached until their turn; exact for images and sources too |
| `KittySupply.ShowsExactlyIffSupplied` | __references/herdr/src/kitty_graphics.rs:295-429 | the update lists exactly the frame's visible placements if and only if each is supplied: it or an earlier one of its image brings data, or the image is cached and some retained source pointing at it has no earlier placement (or none points at it and no pane layer left it) |
| `KittyFrame.UpdateSettles` | __references/herdr/src/kitty_graphics.rs:330-429 | after the update of a supplied frame the cache lists exactly its visible placements with their current signatures, each backed by its image and source |
| `KittyFrame.FrameExact` | __references/herdr/src/kitty_graphics.rs:295-429 | the host shows exactly this frame's clipped placements, with their images, if and only if the frame is supplied |
| `KittyFrame.CollectedIsFed` | __references/herdr/src/kitty_graphics.rs:524-601 | collecting placements withholds data only where the image is cached under the id it will be shown under; the data of a pane layer is never withheld |
| `KittyFrame.RepaintSettles` | __references/herdr/src/kitty_graphics.rs:178-234 | whatever an update missed, painting the same placements again, with data withheld anew, settles the cache on the frame, and a third time with an unchanged view sends nothing |
| `KittyPaint.PaintsKeep` | __references/herdr/src/kitty_graphics.rs:178-234 | over every run of paints that collect their placements anew, and of clears, host and cache agree, the cache is consistent, and cached ids stay below the bit that marks pane layers |
| `KittyPaint.ThreePaints` | __references/herdr/src/kitty_graphics.rs:178-234 | after any such run, painting the same placements three times: the second paint leaves the host showing exactly their visible parts, and the third, the view being unchanged, sends nothing |
| `KittyFrame.Quiescence` | __references/herdr/src/kitty_graphics.rs:394-429 | repeating the same placements on a settled cache leaves it alone and sends nothing, or one display per visible placement when the view changed |
| `KittyFrame.PaintTwice` | __references/herdr/src/kitty_graphics.rs:295-429 | after a supplied frame, a second update with the same placements and an unchanged view sends nothing |
| `KittyFrame.SharedImageMissesAFrame` | __references/herdr/src/kitty_graphics.rs:433-459 | concrete family of frames in which a shared image is deleted as superseded before a data-less placement needs it |
| `KittyFrame.ShownInsidePanes` | __references/herdr/src/kitty_graphics.rs:784-926 | after an update everything the host shows lies inside some placement's pane and inside its image |
| `LayoutTiling.SplitPartitions` | __references/herdr/src/layout.rs:649-668 | the two rectangles of a split partition the area cell by cell, for every ratio in [0,1] |
| `LayoutTiling.ExactTiling` | __references/herdr/src/layout.rs:422-446 | every cell of the area lies in exactly one pane and every other cell in none, for every tree |
| `LayoutTiling.PanesDisjoint` | __references/herdr/src/layout.rs:422-446 | distinct panes share no cell |
| `LayoutTiling.PanesInside` | __references/herdr/src/layout.rs:422-446 | every pane lies inside the area, zero-size ones included |
| `LayoutTiling.PanesInIdOrder` | __references/herdr/src/layout.rs:477-485 | panes come in the order of the pane ids |
| `LayoutNavigation.NavigationFindsNeighbours` | __references/herdr/src/layout.rs:289-348 | with all panes of positive size, navigation finds nothing exactly at the area's border, and otherwise a pane at edge distance 0 overlapping on the other axis |
| `LayoutNavigation.BestIsNeighbour` | __references/herdr/src/layout.rs:289-348 | the minimum over distance, overlap, centre distance and order is a true neighbour as soon as one exists |
| `LayoutNavigation.ZeroWidthPaneMisleads` | __references/herdr/src/layout.rs:289-348 | concrete layout in which navigation finds a zero-width pane although the focused one touches the border: positive size is needed |
| `LayoutEdits.SplitIsLocal` | __references/herdr/src/layout.rs:548-575 | a split replaces the target's rectangle by its two halves and moves no other pane |
| `LayoutEdits.SplitThenClose` | __references/herdr/src/layout.rs:585-606 | closing the pane a split created rebuilds the identical tree |
| `LayoutEdits.CloseIsLocal` | __references/herdr/src/layout.rs:585-606 | a close gives the sibling the shared area and moves no pane outside it |
| `LayoutEdits.SwapTwice` | __references/herdr/src/layout.rs:532-546 | swapping two ids twice is the identity |
| `LayoutEdits.SwapKeepsRects` | __references/herdr/src/layout.rs:532-546 | a swap exchanges the two ids and moves no rectangle |
| `LayoutEdits.RatioIsLocal` | __references/herdr/src/layout.rs:608-627 | setting a ratio redistributes that split's area only |
| `LayoutEdits.BalanceIdempotent` | __references/herdr/src/layout.rs:515-530 | balancing twice is balancing once |
| `LayoutEdits.EdgeIsABorder` | __references/herdr/src/layout.rs:448-475 | each edge of a pane inside the area is the border of some listed split across it |
| `LayoutEdits.ResizeMovesTheEdge` | __references/herdr/src/layout.rs:224-248 | a resize away from the area's border adjusts, by the clamped delta, a split whose border is exactly the pane's requested edge |
| `LayoutEdits.FirstLenMonotone` | __references/herdr/src/layout.rs:649-668 | despite rounding, a larger ratio never makes the first child smaller |
| `LayoutEdits.RatioFollows` | __references/herdr/src/layout.rs:209-211 | a resize by a positive delta never turns the ratio against its direction if and only if the old ratio was not beyond the clamp on that side |
| `LayoutEdits.ResizeMovesForward` | __references/herdr/src/layout.rs:224-248 | the border a resize moves stays the border of the same split and area, and for a positive delta does not move against the direction unless the old ratio lay beyond the clamp |
| `LayoutEdits.ClampMovesBack` | __references/herdr/src/layout.rs:224-248 | concrete layout in which growing a pane to the right makes it narrower, its ratio lying beyond the clamp |
| `LayoutEdits.ApplyKeeps` | __references/herdr/src/layout.rs:131-266 | every edit with fresh ids keeps leaf ids distinct, the focus on a leaf and the ratios in range |
| `LayoutEdits.RunKeeps` | __references/herdr/src/layout.rs:131-266 | over every sequence of edits leaf ids stay distinct, the focus a leaf and the ratios in range |
| `LayoutEdits.RunTiles` | __references/herdr/src/layout.rs:112-117 | after every sequence of edits the panes tile whatever area they are given, one pane per id |
| `Layout.TileLayout.SplitFocusedWithRatio` | __references/herdr/src/layout.rs:131-138 | the focused pane is split, with a clamped ratio, and the new pane focused |
| `Layout.TileLayout.InsertPaneNear` | __references/herdr/src/layout.rs:142-162 | inserts and focuses the moved pane only when the target is there and the moved one is not |
| `Layout.TileLayout.CloseFocused` | __references/herdr/src/layout.rs:165-186 | removes the focused pane and focuses the next one, or the previous one at the end; the last pane stays |
| `Layout.TileLayout.SwapPanes` | __references/herdr/src/layout.rs:196-206 | swaps exactly when both panes exist and differ |
| `Layout.TileLayout.ResizePane` | __references/herdr/src/layout.rs:250-266 | resizes relative to the named pane and leaves the focus where it was |
| `Msg.MsgBus.DeliverMessage` | __references/herdr/src/msg.rs:276-298 | an oversized body is refused without effect; otherwise only the addressed inbox changes, created on first use |
| `Msg.Inbox.EnforceInboxCaps` | __references/herdr/src/msg.rs:95-104 | the loop drops oldest messages until the caps hold or nothing is left |
| `Msg.Inbox.Acknowledge` | __references/herdr/src/msg.rs:323-333 | the cursor moves forward only, clamped to the newest message |
| `Msg.MsgBus.List` | __references/herdr/src/msg.rs:300-319 | returns the selected messages, unread and dropped counts and cursor of the pane, zeros for an unknown pane |
| `Msg.MsgBus.RekeyPane` | __references/herdr/src/msg.rs:407-425 | the moves and the loop over the pane's groups produce the specified re-keyed state |
| `Msg.MsgBus.RemovePaneState` | __references/herdr/src/msg.rs:427-442 | the inbox goes, and the pane leaves every group, emptied groups with it |
| `MsgProperties.DeliverRetains` | __references/herdr/src/msg.rs:276-298 | a delivery keeps the inbox the longest suffix of its delivery log within 500 messages and 4 MiB |
| `MsgProperties.RetainedIsLongest` | __references/herdr/src/msg.rs:95-104 | a suffix of the log fits the caps exactly when it is no longer than what is retained |
| `MsgProperties.RetainedRange` | __references/herdr/src/msg.rs:276-298 | the retained numbers are the contiguous range dropped+1 to next-1, and the newest message is kept |
| `MsgProperties.UnreadExact` | __references/herdr/src/msg.rs:77-82 | unread equals next-1 minus the larger of cursor and dropped count |
| `MsgProperties.ListExact` | __references/herdr/src/msg.rs:300-319 | listing returns exactly the part of the full log behind the requested number, the cursor and the dropped messages |
| `MsgProperties.RekeyIsRename` | __references/herdr/src/msg.rs:407-425 | re-keying equals discarding the new pane's state and renaming old to new everywhere |
| `MsgProperties.RekeyDeliver` | __references/herdr/src/msg.rs:407-425 | re-keying commutes with a delivery to the pane |
| `MsgProperties.RekeyAck` | __references/herdr/src/msg.rs:407-425 | re-keying commutes with an acknowledgement by the pane |
| `MsgProperties.RekeyJoin` | __references/herdr/src/msg.rs:347-358 | re-keying commutes with the pane joining a group |
| `MsgProperties.RekeyLeave` | __references/herdr/src/msg.rs:362-377 | re-keying commutes with the pane leaving a group |
| `MsgProperties.ApplyKeepsInverse` | __references/herdr/src/msg.rs:347-442 | every operation keeps the two group indexes inverse to one another with no empty sets |
| `MsgProperties.RunKeeps` | __references/herdr/src/msg.rs:276-442 | over every run each inbox obeys the retention law for its own log, carried along by re-keying, and the indexes stay inverse |
| `MsgProperties.EmptyBusKeeps` | __references/herdr/src/msg.rs:122-132 | both laws hold in every state reachable from the empty bus |
| `EventHub.EventHub.Push` | __references/herdr/src/api/event_hub.rs:15-26 | the hub holds the last 512 events ever pushed under their positions in the full log |
| `EventHub.EventHub.EventsAfter` | __references/herdr/src/api/event_hub.rs:28-38 | returns the events behind the given number, as far as they are among the last 512 |
| `EventHub.AboveSince` | __references/herdr/src/api/event_hub.rs:28-38 | filtering the retained events by number is cutting the full log at that number or at the retention limit |
| `EventHub.EachEventOnce` | __references/herdr/src/api/event_hub.rs:15-38 | a polling subscriber receives every event up to its last poll once, in order, if and only if at most 512 are pushed between polls |
| `EventHub.Subscription.Poll` | __references/herdr/src/api/subscriptions.rs:345-355 | returns the first wanted event behind the cursor and moves the cursor to it, or past everything |
| `EventHub.SubscriptionExact` | __references/herdr/src/api/subscriptions.rs:345-355 | a subscription returns every wanted event behind its cursor, once and in order, if and only if at every poll the wanted events that have left the buffer number no more than the wanted events polled before; counted from pushes and polls alone |
| `EventHub.CloseLosesNothing` | __references/herdr/src/api/subscriptions.rs:345-355 | a subscription whose cursor is never more than 512 behind at a poll loses nothing |
| `EventHub.OneAtATimeFallsBehind` | __references/herdr/src/api/subscriptions.rs:345-355 | concrete family: with at most 512 pushes between polls a subscription still loses events, since a poll returns one only |
| `Probe.StepPays` | __references/herdr/src/pane.rs:352-427 | one round of the detector: a probe the window asks for uses up what the window had left, or a window opens |
| `Probe.ProbesPerWindow` | __references/herdr/src/pane.rs:352-427 | over every run in which no agent is found, window probes number at most 7 for each window opened, or 6 when no two rounds share an instant |
| `Probe.ProbeBound` | __references/herdr/src/pane.rs:352-427 | with a known unchanged group, an earlier probe and content changes less than 2 s apart, at most 7 further probes happen in the whole run, none without a change |
| `Probe.OneOpening` | __references/herdr/src/pane.rs:387-427 | under the same conditions the first change opens one window, which never reopens |
| `Probe.OpeningsApart` | __references/herdr/src/pane.rs:387-427 | without the condition on changes, windows open more than 8 s apart |
| `Probe.ProbeRate` | __references/herdr/src/pane.rs:352-427 | without the condition on changes, at most 7 probes for every 8001 ms of the run and 7 more |
| `Probe.BoundAttained` | __references/herdr/src/pane.rs:352-427 | concrete runs with 7 and with 6 probes: both bounds are tight |
| `Probe.ContentAcquisition.SyncContentChange` | __references/herdr/src/pane.rs:387-427 | the two timestamps change as specified, and not at all with an agent, a suppression or a changed group |
| `Probe.AgentDetectionPresence.ObserveProcessProbe` | __references/herdr/src/pane.rs:895-919 | the counter always agrees with the probe history: the last agent found is believed until six probes in a row miss it; the result says whether that belief changed |
| `Probe.AgentDetectionPresence.ClearCurrentAgent` | __references/herdr/src/pane.rs:885-893 | clearing forgets the agent and says whether there was one |
| `Probe.SixMissesForget` | __references/herdr/src/pane.rs:895-919 | an agent is believed through five misses in a row and through no more |

## Left out

- Sockets, terminal and PTY actors, async tasks, locks, logging, clipboard, stdout writing, rendering, configuration, CLI and scripts: input and output plumbing or presentation.
- The terminal-key parser (`input/parse.rs`): a parameter of the framer, any predicate on byte strings. Theorems that need it state what they ask of it: every scalar is a key.
- Host image and placement ids, data fingerprints: parameters. The id hashes and sha2 are not part of this model; collisions are allowed except where a theorem excludes them.
- 32-bit floating point ratios: reals, so rounding inside `f32`, NaN and infinities are not captured.
- 64-bit sequence numbers, byte counters and `usize` lengths: naturals, so their saturation is not captured. `Instant` and `Duration` are naturals in milliseconds.
- In-place mutation of tree nodes (`set_ratio_at`, `balance_node`, `swap_pane_ids`): functions on tree values; the layout object assigns the resulting tree.
- `TileLayout::from_saved` checks nothing; the laws over runs start from a state with distinct ids, a focused leaf and ratios in range.
- Iteration order of hash collections: the graphics theorems hold for every order; the groups of a pane are returned as sets, where the source sorts a list.
- Finding the active view and the placements of panes and layers (`kitty_graphics.rs`, lines 515 to 668): a paint takes the view key and the placements with all their data, and withholds data itself.
- Reports with signed or ignored parameters under more than one timeout: already one timeout makes them leak.
- 16-bit overflow of a placement's cell position and 32-bit overflow of its crop origin; the crop theorem assumes that no product or sum leaves 32 bits.
- A `#` colour whose text is not ASCII: the source cuts it at byte offsets, which may fall inside a character; the model reads it as no colour.
- Addressing of messages (`parse_target`, `resolve`) and group listings: thin validation and lookup.
- Detector rounds that find an agent, are suppressed, have a pending shell clear, or are skipped because a full lifecycle authority is active (`should_skip_process_probe_for_lifecycle_authority`): the run theorems cover the rounds in which none of that happens; the decision function itself has all its branches.
- A poisoned lock of the event hub, on which it silently does nothing.
- Convenience wrappers, and the front end that turns chunks into events (`parse_raw_input_bytes` and the event framer): they would only add easy members.
