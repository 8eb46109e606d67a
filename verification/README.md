# HUME: a verified model

HUME is a modal terminal editor. This project models the parts of it whose correctness is not visible from any
single function, and proves what they are for:

- **Changesets** (`change_sets`, `position_maps`, `change_images`, `joined_lines`, `range_maps`): the
  retain/delete/insert lists every edit is made of; running, inverting and composing them, and where positions, lines
  and ranges go through them.
- **Bracket matching** (`brackets`): the interleaved, distance-bounded scan against three separate scans and a minimum.
- **Hunks and the change log** (`lines`, `regions`, `hunks`, `word_spans`, `edit_ranges`, `change_log`): an edit as a
  patch of whole lines with marked words, and a bounded log that patches the live text back to an earlier generation.
- **The undo tree** (`history_tree`, `history_trim`, `history_walk`, `history`): revisions with a ghost map from
  revision to text, trimmed to a cap, walked by lowest common ancestor.
- **The interval sweep** (`interval_sweep`): overlapping ranked spans flattened by an event sweep.
- **The cell grid and its diff** (`grid_rows`, `grids`, `grid_diff`): wide glyphs in a flat buffer, edge repair, and a
  gap-merging diff that repaints one frame over another.
- **The language client** (`positions`, `code_units`, `sync`, `messages`, `message_wire`, `framing`, `codec`,
  `header_blocks`, `json_codes`, `handshake_queue`, `request_fates`, `client_steps`, `client_sweeps`, `client_runs`,
  `client_traces`, `lsp_client`): the client side of the Language Server Protocol 3.17 (its "Base Protocol",
  "Position", "DidChangeTextDocument Notification" and "Initialize Request" sections) over JSON-RPC 2.0 (sections 4
  and 5); the class steps through values of its whole state, and the theorems are about any run of those steps.
- **Line wrapping** (`line_wrap`, `line_breaks`, `line_format`): greedy wrapping that backtracks to the last space and
  renumbers the cells it carries.
- **Decorations** (`source_names`, `entry_order`, `entry_remaps`, `source_store`, `sign_ladders`, `decoration_stamps`,
  `decorations`): per-buffer, per-source entries carried through edits, and the stamp that names what a buffer holds.
- **S-expressions** (`sexprs`, `sexpr_atoms`, `sexpr_layout`): the reader of the sync scripts, against their printers.

Text is a sequence of Unicode scalar values, and LF is its only line break. An object whose methods update its fields
is a class here, with its methods proved against functions of the old state; what the source promises is then proved
about those functions. `dafny verify dfyconfig.toml` checks the whole project.

## Model

| member | source | states |
|---|---|---|
| ChangeSets.Apply | hume-editing/src/changeset/mod.rs:535-613 | applying a changeset gives the text it means, or the length mismatch or missing final break the source reports; editing a rope in place with a running shift agrees with the recursive meaning |
| ChangeSets.IdentityIsOne | hume-editing/src/changeset/mod.rs:451-496 | the changesets applied unchecked are the identities, exactly one for each length |
| ChangeSets.InverseUndoes | hume-editing/src/changeset/mod.rs:788-845 | the inverse takes the produced text back to the text the changeset started from |
| ChangeSets.InverseIsInvolution | hume-editing/src/changeset/mod.rs:788-845 | undoing an undo is the same changeset, op for op |
| ChangeSets.Compose | hume-editing/src/changeset/mod.rs:849-1005 | the two-cursor walk gives the composed changeset |
| ChangeSets.ComposedRun | hume-editing/src/changeset/mod.rs:849-1005 | running the composition is running the one changeset and then the other |
| ChangeSets.NetRun | hume-editing/src/changeset/mod.rs:1011-1035 | folding a run of changesets pairwise has the effect of applying them one by one, however the fold is balanced |
| ChangeImages.ComposedImage | hume-editing/src/changeset/mod.rs:849-1005 | a character goes through a composition exactly where the one change and then the other take it |
| ChangeImages.NetImage | hume-editing/src/changeset/mod.rs:1011-1035 | and through the net of a whole run exactly where the run takes it |
| ChangeImages.InverseImage | hume-editing/src/changeset/mod.rs:788-845 | a change takes a character to a place if and only if its undo takes that place back to the character |
| PositionMaps.PosMapCursor.Map | hume-editing/src/changeset/mod.rs:179-235 | a cursor resumed over non-decreasing positions answers each as a fresh query from the first op would |
| PositionMaps.ImageKeepsChar | hume-editing/src/changeset/mod.rs:213-235 | where a surviving character is said to land, the new text has that character |
| PositionMaps.MapCuts | hume-editing/src/changeset/mod.rs:213-235 | a mapped position has before it exactly the surviving characters the position had, whichever way it sticks to inserted text |
| PositionMaps.FlagExact | hume-editing/src/changeset/mod.rs:203-235 | the deletion flag tells the deleted characters for all positions if and only if no deletion stands right behind an insertion |
| PositionMaps.RangeHolds | hume-editing/src/changeset/mod.rs:665-722 | a mapped range holds the surviving characters the range held and no other old one |
| PositionMaps.RangeDropped | hume-decorations/src/decorations.rs:464-502 | a range collapses exactly when the change deletes all its characters and inserts nothing strictly inside |
| PositionMaps.LineMapCursor.MapLine | hume-editing/src/changeset/mod.rs:328-435 | the walk in line units, which only counts breaks op by op, gives the line of the line's own break mapped as a position, nothing when that break is reported deleted |
| PositionMaps.UndoneReplacementJoins | hume-editing/src/changeset/mod.rs:328-336 | undoing the replacement of a character by a line break keeps both lines and puts them on one |
| RangeMaps.MapRanges | hume-editing/src/changeset/mod.rs:689-722 | the two passes, ends in an order of their own and clamped at the end, map every range as it would be mapped alone |
| JoinedLines.LinesStayApart | hume-decorations/src/decorations.rs:386-390 | kept lines stay on different lines if and only if the change joins none: no break-free insertion right before a deleted break with a kept line next |
| JoinedLines.LinesMeet | hume-editing/src/changeset/mod.rs:328-384 | two kept lines share a line exactly when no break stands between where their own breaks land |
| JoinedLines.DeletesFirstJoinsNone | hume-decorations/src/decorations.rs:386-390 | a change that deletes before it inserts joins nothing it keeps |
| Brackets.FindTightestBracketPair | hume-ops/src/pair.rs:228-326 | the interleaved bounded scan returns the smallest-span pair among the three single-type answers, ties to the bracket order, and terminates |
| Brackets.BracketPairChars | hume-ops/src/pair.rs:104-124 | a single-type lookup, from a bracket or from between, as a function of the two scans |
| Brackets.TightestMeans | hume-ops/src/pair.rs:213-228 | the minimum is one of the candidates, no candidate is tighter, and none of equal span comes before it |
| Brackets.CutOffCannotWin | hume-ops/src/pair.rs:250-326 | a type cut off by a distance bound can neither win nor tie |
| Brackets.ScansAreDual | hume-ops/src/pair.rs:46-100 | the scan left from a close finds an open exactly when the scan right from it finds the close |
| Brackets.PairMatches | hume-ops/src/pair.rs:104-124 | the pair found is a matching pair around the position, and matching either end gives the pair again |
| Brackets.PairIsInnermost | hume-ops/src/pair.rs:104-124 | it is the innermost: any matching pair around the position encloses it |
| Hunks.ChangeHunksWithin | hume-editing/src/hunk.rs:78-115 | replacing each hunk's new lines by its old lines yields exactly the produced text's lines, each old start is where those lines sit in it, hunks ascend and are disjoint; the regions are the changeset's edits and no others: a region holds exactly the characters that do not survive, with what is inserted over them; the hunks are those of the groups of touching regions in turn, each within its group's lines and differing in the first and the last, none for a group that cancels out; no answer exactly when the groups span more than the bound |
| Regions.RegionsUnique | hume-editing/src/changeset/mod.rs:741-770 | a changeset has exactly one list of edited regions |
| Hunks.AffectedMeans | hume-editing/src/hunk.rs:135-155 | a region touches exactly the lines it does not leave alone: those before it, and those that start at its end behind an intact break |
| Hunks.GroupHunk | hume-editing/src/hunk.rs:160-233 | one group's text on both sides, its common lead and trail trimmed; none when its regions cancel out |
| Hunks.GroupLines | hume-editing/src/hunk.rs:135-155 | every group covers whole lines on both sides: the produced text splits into lines piece by piece |
| EditRanges.GroupRanges | hume-editing/src/hunk.rs:173-187 | the running offsets name exactly the inserted text in the old side and the deleted text in the new side, in order |
| WordSpans.Clipped | hume-editing/src/hunk.rs:347-375 | the one pass over lines and ranges gives every range's part in every kept line |
| WordSpans.MarkedChars | hume-editing/src/hunk.rs:344-375 | a character of a kept line is marked exactly when an edited range holds it without holding the whole line |
| WordSpans.PartText | hume-editing/src/hunk.rs:378-405 | a part's columns in its line and its offsets in the side's text name the same characters |
| ChangeLogs.ChangeLog.Record | hume-editing/src/change_log.rs:47-66 | the step recorded undoes the edit and holds as many chars as the edit deletes; the log keeps, of all steps ever recorded, what its bounds leave |
| ChangeLogs.HeldIsDeleted | hume-editing/src/change_log.rs:47-66 | what an undo holds to put back is as long as what the edit deletes |
| ChangeLogs.ChangeLog.RecordReplace | hume-editing/src/change_log.rs:69-75 | a replacement is a step nothing reaches back over |
| ChangeLogs.ChangeLog.Push | hume-editing/src/change_log.rs:102-113 | after every push the held-char count is the sum over kept steps and both bounds hold |
| ChangeLogs.RetainedLongest | hume-editing/src/change_log.rs:102-113 | what is kept is the longest run of newest steps within both bounds |
| ChangeLogs.RetainedPush | hume-editing/src/change_log.rs:102-113 | dropping as each step comes keeps what dropping once, at the end, would |
| ChangeLogs.ReachedByRetained | hume-editing/src/change_log.rs:24-32 | the log reaches exactly the generations since which all steps are edits and fit the bounds |
| ChangeLogs.ChangeLog.Since | hume-editing/src/change_log.rs:81-100 | an answer patches the live text back to the text of that generation, with the hunks of the net undo, spanning no more than the reporting bound; no answer only for a generation not reached or hunks over the bound |
| Histories.History.Record | hume-editing/src/history.rs:274-323 | the new revision is current and its parent's redo child, forward and inverse run between the right texts, and trimming then ends within the cap, the tree before its last step being over it |
| Histories.History.EnforceUndoLevels | hume-editing/src/history.rs:332-370 | at most the cap of non-root revisions is left, the current revision and its line are kept but for promotion into the root, surviving links map the right texts, the root has the text of the promoted revision returned, and before the last step the tree was over the cap |
| HistoryTrim.LineKeepsCap | hume-editing/src/history.rs:332-370 | a history without branches that is trimmed keeps exactly as many revisions as the cap allows |
| HistoryTrim.PruneStep | hume-editing/src/history.rs:332-402 | dropping the root's oldest branch off the current line keeps all of this |
| HistoryTrim.PromoteStep | hume-editing/src/history.rs:348-370 | so does promoting the root's only child |
| Histories.History.RemoveSubtree | hume-editing/src/history.rs:387-402 | exactly the branch is removed, whatever its parent; a parent whose redo child it was goes on along its newest remaining child |
| HistoryTree.RedoFollows | hume-editing/src/history/children.rs:15-42 | redo goes on to a new child, and from a removed redo child to the newest child left |
| Histories.History.Undo | hume-editing/src/history.rs:412-426 | one step up: the returned changeset takes the text back to the parent's |
| Histories.History.Redo | hume-editing/src/history.rs:431-440 | one step down the redo child: the returned changeset takes the text to the child's |
| Histories.History.UndoN | hume-editing/src/history.rs:444-447 | as many steps as the root allows, each the inverse of the revision it leaves, carrying the text on |
| Histories.History.RedoN | hume-editing/src/history.rs:451-453 | as many steps as the redo children allow, each the forward change of the revision it enters |
| HistoryTree.UndoThenRedoReturns | hume-editing/src/history.rs:444-453 | undoing any number of steps and redoing the steps taken returns to the same revision |
| Histories.History.Path | hume-editing/src/history.rs:599-623 | the larger-id-steps-up walk ends at the lowest common ancestor |
| HistoryWalk.WalkRuns | hume-editing/src/history.rs:625-641 | inverses up and forwards down carry the text of the start to the text of the target |
| HistoryWalk.MarkedRedo | hume-editing/src/history.rs:765-776 | after a walk every proper ancestor of the target has the next revision toward it as redo child |
| HistoryWalk.MarkedOnWay | hume-editing/src/history.rs:765-776 | and every revision that is no parent on the way down, the target too, keeps the redo child it had |
| Histories.History.ChangesTo | hume-editing/src/history.rs:643-654 | the one changeset to the target's text, the net of the inverses up and the forwards down, with no state changed |
| Histories.History.GotoRevision | hume-editing/src/history.rs:757-778 | the changesets are the inverses up and the forwards down and carry the current text to the target's; redo then leads to the target, and no other redo child changes; nothing for an absent one |
| IntervalSweep.FlattenOverlappingSpans | hume-engine/src/interval_sweep.rs:45-122 | every position shows exactly the scope of the covering span of highest rank, ties by the tie-break order; the output is sorted, disjoint, non-empty and merged |
| IntervalSweep.LayerIsUnique | hume-engine/src/interval_sweep.rs:45-122 | only one such output exists, so an unstable sort of equal keys cannot change it |
| GridRows.WrittenWellFormed | hume-grid/src/grid.rs:155-187 | writing a piece keeps the row's invariant, whatever glyphs it cuts |
| GridRows.LookAlike | hume-grid/src/style.rs:68-103 | two styles look alike on every terminal if and only if they normalize to the same style |
| GridRows.NormalizedSeen | hume-grid/src/style.rs:90-103 | normalizing keeps the look and leaves known colours unreversed |
| GridRows.CutKeepsStyle | hume-grid/src/grid.rs:163-187 | outside what is written, a column whose glyph is cut is a space in the style it had, and any other is as it was |
| GridRows.GlyphCells | hume-grid/src/cell.rs:41-71 | a glyph is its text in its style, then empty cells up to its advance in the same style |
| Grids.Grid.SetGlyph | hume-grid/src/grid.rs:98-127 | the cells are those from before with the row written: the glyph or its blanks, cut halves blanked in their own style, nothing else |
| Grids.DrawnCells | hume-grid/src/grid.rs:111-133 | a glyph past the right edge leaves spaces in the style given up to the edge; any other is drawn whole |
| Grids.WrittenRows | hume-grid/src/grid.rs:98-157 | such a write makes its row the written one and leaves every other row as it was |
| Grids.Grid.FillSpan | hume-grid/src/grid.rs:136-157 | the same of a fill, clipped to the grid |
| Grids.Grid.RepairEdges | hume-grid/src/grid.rs:163-187 | walking to the head on the left and past the continuations on the right blanks exactly the halves the write cuts off |
| Grids.Grid.Resize | hume-grid/src/grid.rs:55-62 | every row is blank and well-formed |
| Grids.Grid.Reset | hume-grid/src/grid.rs:65-67 | the same, at the same size |
| Grids.ClipTest | hume-grid/src/grid.rs:117-120 | the saturating edge test is right if and only if the grid is narrower than the largest 16-bit width or the glyph ends within it |
| Grids.OverhangBreaks | hume-grid/src/grid.rs:117-127 | at width 65535 a two-column glyph in the last column breaks its row and the row below |
| Grids.OverhangNeverFits | hume-grid/src/grid.rs:117-127 | so does every glyph past the edge of such a row |
| GridDiff.DiffRuns.Next | hume-grid/src/diff.rs:66-106 | the iterator yields the runs of the diff one by one, then none |
| GridDiff.RunsBuilt | hume-grid/src/diff.rs:66-106 | every changed cell lies in exactly one run, and runs start and end on changed cells |
| GridDiff.RunsStartOnHeads | hume-grid/src/diff.rs:66-106 | with glyphs no wider than the gap bound allows no run starts on a continuation |
| GridDiff.WiderGlyphBreaks | hume-grid/src/diff.rs:66-106 | for every gap a glyph one column wider gives a run that starts inside it: the bound is exact |
| GridDiff.PaintedGridIsNext | hume-grid/src/diff.rs:66-106 | painting each run head by head by its stored advance over the previous frame gives exactly the next frame |
| Positions.DecodeUndoesEncode | hume-rope/src/position_encoding.rs:53-175 | decoding undoes encoding at every char offset, in every encoding |
| Positions.DecodeIsLast | hume-rope/src/position_encoding.rs:101-175 | decoding any position finds the last offset not past it, on the last line when the position's line is past it: columns inside a character fall back, those past the line stop at its end |
| CodeUnits.DecodedEncoded | hume-rope/src/position_encoding.rs:53-70 | UTF-8, UTF-16 and UTF-32 as sequences of code units are each decoded back to the text |
| CodeUnits.UnitsFit | hume-rope/src/position_encoding.rs:53-70 | every unit fits the width of its encoding: a byte, a 16-bit word or a code point |
| CodeUnits.UnitsAreEncoded | hume-rope/src/position_encoding.rs:53-114 | the units counted of a text are as many as its encoding has |
| CodeUnits.ColumnIsEncoded | hume-rope/src/position_encoding.rs:53-70 | a position is the number of breaks before the offset and the length of the encoded line up to it |
| Sync.ContentChanges | hume-lsp/src/sync.rs:21-69 | one event for each deletion and insertion, in order, at the positions of the text the events before left, which together produce the text the changeset produces; no result only past 32 bits |
| Sync.ApplyEventsToMirror | hume-lsp/src/sync.rs:77-90 | an independent string replay of the events gives the same text |
| Sync.WirePosToByte | hume-lsp/src/sync.rs:109-146 | plain scanning finds the byte offset of a position that encodes an offset; on any other it stops at the end of the text past the last line, else at the column's byte in UTF-8 and at the first character at or past the column otherwise |
| HandshakeQueue.SupersededUnseen | hume-lsp/src/client.rs:242-274 | skipping a superseded change leaves the server with the same documents |
| HandshakeQueue.EnqueueMirrors | hume-lsp/src/client.rs:536-545 | coalescing leaves every document's mirror as the uncoalesced queue does |
| HandshakeQueue.BurstQueuesOne | hume-lsp/src/client.rs:242-274 | a burst of whole-text changes of one document queues its last one alone, in place of a change of that document queued last |
| HandshakeQueue.OthersQueueBehind | hume-lsp/src/client.rs:242-274 | a change with a range, of several parts or of another document replaces nothing |
| RequestFates.HandOut | hume-lsp/src/client.rs:458-493 | a pending request handed out is in no other place, and its outcome is its only one |
| LspClients.LspClient.SendRequest | hume-lsp/src/client.rs:357-380 | a fresh id, pending from now on; sent when running, queued while starting, due at once otherwise; the rest of the client stays |
| LspClients.LspClient.Cancel | hume-lsp/src/client.rs:400-409 | a pending request is dropped from the books and the queue; an ended one is left alone, and so is the rest of the client |
| LspClients.LspClient.DrainPending | hume-lsp/src/client.rs:411-416 | every pending request is delivered once as stopped, and what is queued of them stays queued |
| LspClients.LspClient.TakeCompleted | hume-lsp/src/client.rs:458-493 | every buffered answer and every due request is delivered once, the queue loses exactly the requests timed out, and the handshake's expiry is a crash and not a delivery |
| LspClients.LspClient.StartHandshake | hume-lsp/src/client.rs:497-521 | the one message sent while starting is `initialize` |
| LspClients.LspClient.SendOrQueue | hume-lsp/src/client.rs:536-545 | sent when running, queued with coalescing while starting, dropped otherwise |
| LspClients.LspClient.OnResponse | hume-lsp/src/client.rs:548-598 | a response is buffered only when its request is pending; duplicate, late and unknown ones change nothing |
| LspClients.LspClient.OnEvent | hume-lsp/src/client.rs:548-598 | no event leads back from crashed or dead, and the whole new state and the actions are those of the one step the event stands for |
| LspClients.LspClient.HandleInitializeResponse | hume-lsp/src/client.rs:600-676 | an accepted result negotiates the encoding and the sync kind, sends the flush and empties the queue; an error or a malformed result crashes and sends nothing |
| ClientRuns.FlushOfRun | hume-lsp/src/client.rs:536-676 | over any run, what follows `initialize` on the wire is `initialized`, optional configuration, then everything offered while starting, in order, short of exactly the requests cancelled or timed out and of changes superseded; the mirrors are those the whole of it leaves |
| ClientRuns.GoneBy | hume-lsp/src/client.rs:400-493 | over any run, the requests the flush leaves out are exactly those cancelled while pending or swept as due |
| ClientRuns.QueuedNotPending | hume-lsp/src/client.rs:411-598 | over any run, a request still queued is no longer pending if and only if it was drained as stopped or answered while queued |
| ClientRuns.DrainedIsSent | hume-lsp/src/client.rs:411-416 | a run in which a request already handed out as stopped is sent by the flush |
| ClientRuns.QuietAfterwards | hume-lsp/src/client.rs:497-598 | a crashed or dead client never goes back, and sends nothing but a handshake started anew |
| ClientRuns.CrashSendsNothing | hume-lsp/src/client.rs:524-527 | the step that crashes a client sends nothing and empties its queue |
| ClientRuns.HandedOutOnce | hume-lsp/src/client.rs:411-493 | over any run no request is handed out twice, and none that is handed out is pending |
| ClientRuns.CrashReportedOnce | hume-lsp/src/client.rs:524-598 | over any run a crash is reported at most once |
| ClientTraces.WireOfRun | hume-lsp/src/client.rs:357-706 | over any run the wire holds, in call order, just what was sent or asked for while running, the notes of requests cancelled or swept then, each handshake and its flush, and the shutdown pair |
| ClientTraces.NegotiatedOfRun | hume-lsp/src/client.rs:600-676 | over any run the encoding, the kind of changes and the capabilities are those of the accepted answer |
| ClientTraces.UnnegotiatedRun | hume-lsp/src/client.rs:277-330 | and until one is accepted they are the defaults |
| ClientTraces.LostAskTimesOut | hume-lsp/src/client.rs:357-380 | a request asked for on a lost connection sends nothing and is handed out as timed out by the next sweep |
| ClientTraces.AnswerHandedOut | hume-lsp/src/client.rs:548-598 | an answered request is handed out with its answer, an error response as a fault |
| ClientTraces.OwnRequests | hume-lsp/src/client.rs:497-706 | the handshake and the shutdown request are pending with the deadlines of their own |
| ClientTraces.PassedOn | hume-lsp/src/client.rs:548-598 | over any run the server's requests, notifications and log lines are handed up in order, each once |
| ClientTraces.OwnReports | hume-lsp/src/client.rs:548-676 | what the client reports of itself: running with all it flushed, and each cause of a crash |
| LspClients.LspClient.BeginShutdown | hume-lsp/src/client.rs:679-706 | only a running client tells the server; the client is dead after it, its queue as it was |
| MessageWire.WireRoundTrip | hume-lsp/src/codec.rs:242-315 | a message read back from its object is the message if and only if its error data is not an explicit null |
| MessageWire.ClassifyShapes | hume-lsp/src/codec.rs:242-272 | exactly the objects with a method and no outcome, or an id with one outcome and no method, are messages |
| MessageWire.ReadsSpelled | hume-lsp/src/codec.rs:115-272 | a JSON value reads as a message exactly when its members spell that message, and is malformed exactly when a member is of a wrong kind |
| MessageWire.WrittenSpells | hume-lsp/src/codec.rs:275-315 | every message is written as an object that spells it, in version 2.0 |
| Framing.Reader.ReadBoundedLine | hume-lsp/src/codec.rs:164-190 | the bounded read over a chunked stream, as a function of the chunks |
| Framing.LineOfContents | hume-lsp/src/codec.rs:164-190 | the line read depends on the bytes alone, unless it passes the bound and a chunk ends between the bound and its break |
| Framing.ChunkingMatters | hume-lsp/src/codec.rs:164-190 | past the bound the same bytes are read or refused by how they are chunked |
| Codec.ReadMessage | hume-lsp/src/codec.rs:196-240 | the result is what the bytes alone tell, however they are chunked, unless a header line passes the bound |
| Codec.WriteMessage | hume-lsp/src/codec.rs:275-315 | the frame written is the header with the body's length, a blank line and the body |
| Codec.FrameRoundTrip | hume-lsp/src/codec.rs:196-315 | a frame reads back as its message just when its body is within the length bound and carries no explicit null as error data |
| Codec.BodyRead | hume-lsp/src/codec.rs:233-272 | a body is its message, or no JSON record, or a record that makes no message, each exactly when it is |
| HeaderBlocks.FrameAmongHeaders | hume-lsp/src/codec.rs:196-240 | a body behind any headers that give its length, named in any letter case and with others before or after, reads as its message; without a length the frame is refused |
| HeaderBlocks.BadLineRefused | hume-lsp/src/codec.rs:213-230 | a line without a colon, or a length that is no number or over the bound, fails the read and is named |
| Codec.StreamRoundTrip | hume-lsp/src/codec.rs:196-315 | any concatenation of frames reads back as its messages in order and then a clean end |
| Codec.CutFrame | hume-lsp/src/codec.rs:196-240 | a stream cut strictly inside a frame is neither a message nor a clean end |
| Codec.CutStream | hume-lsp/src/codec.rs:196-240 | the messages before the cut are still read, in order |
| JsonCodes.InversesExist | hume-lsp/src/codec.rs:275-315 | a serializer and a parser that undo each other exist: the framing results have a subject |
| LineWrap.SplitLaid | hume-engine/src/format.rs:497-556 | a split at an item's end keeps every column the sum of the widths before it, the carried cells renumbered |
| LineFormatting.WrapState.MaybeWrap | hume-engine/src/format.rs:497-556 | wrapping happens exactly when the width does not fit, at the last space after the indent or else where it stands |
| LineFormatting.FormatBufferLine | hume-engine/src/format.rs:46-330 | every item's cells are emitted once and in order over consecutive display lines, each with the depth of the indent; a display line is ended by exactly the items that do not fit on it, at the last space before or else where they stand; every tab stands on the tab stops; single-column lines stay within the wrap column if and only if the first wrap does not split the indent |
| LineBreaks.WidthKept | hume-engine/src/format.rs:497-556 | a cluster of any width, tabs included, that is put on a display line and left there ends within the wrap column or starts at column 0 |
| LineBreaks.NoWrapOneLine | hume-engine/src/format.rs:497-506 | without a wrap column a line is one display line |
| LineBreaks.TabsReachStops | hume-rope/src/width.rs:28-37 | every tab of a page is at least one column and at most a tab width wide and ends on a tab stop, wherever wrapping puts it |
| LineFormatting.BreaksAtSpaces | hume-engine/src/format.rs:497-556 | in the word modes a display line ends right after its last space behind the indent, if it has one; else, and in soft mode, right before the item that did not fit |
| LineWrap.IndentGrows | hume-rope/src/width.rs:229-256 | the indent grows by each blank's width, by a tab to the next tab stop, and ends at the first cluster that is not blank |
| LineWrap.ContinuationIsStop | hume-rope/src/width.rs:259-267 | continuation lines start at the last tab stop within the indent, the 255th at most |
| LineFormatting.LinesConsecutive | hume-engine/src/format.rs:306-324 | display lines follow one another from the first cell to the last, split only where items end |
| LineFormatting.SpacesFit | hume-engine/src/format.rs:484-556 | a single-column line indented by plain spaces keeps every cell and its end within the wrap column |
| LineWrap.NonBreakingIndent | hume-engine/src/format.rs:484-556 | an indent of a no-break space, a space and more passes it |
| EntryOrder.SortStable | hume-decorations/src/decorations.rs:357-369 | setting a source sorts its entries and keeps each anchor's in their order |
| EntryOrder.SortedUnique | hume-decorations/src/decorations.rs:357-369 | no other list is sorted and lists each anchor's entries alike |
| EntryOrder.OnePerLineMeans | hume-decorations/src/decorations.rs:384-395 | a one-per-line source keeps of each line the first entry listed |
| EntryOrder.SliceIsRange | hume-decorations/src/decorations.rs:324-334 | two binary searches cut out exactly the entries of the range, in order |
| EntryRemaps.RemapSorted | hume-decorations/src/decorations.rs:403-502 | carrying a source's entries through an edit keeps them sorted, for hints, line entries and highlights |
| EntryRemaps.RemapOnePerLine | hume-decorations/src/decorations.rs:384-395 | one entry a line stays one entry a line for every source if and only if the edit joins no two lines it keeps |
| EntryRemaps.RemapJoinsLines | hume-decorations/src/decorations.rs:384-395 | an input on which it does not |
| EntryRemaps.LandInText | hume-decorations/src/decorations.rs:449-462 | line entries land on lines of the new text, so the next edit can carry them |
| EntryRemaps.RemapPoints | hume-decorations/src/decorations.rs:428-438 | hints follow their characters and go with them, in one pass |
| EntryRemaps.HintStaysBefore | hume-decorations/src/decorations.rs:428-438 | a hint stays before text inserted at its place |
| EntryRemaps.RemapLines | hume-decorations/src/decorations.rs:449-462 | line entries follow their line's break, in one pass |
| EntryRemaps.RemapRanges | hume-decorations/src/decorations.rs:472-502 | highlights shrink to what survives of them, in batch |
| SourceStores.SourceStore.Set | hume-decorations/src/decorations.rs:357-382 | one source's entries are replaced at its place in ascending order |
| SourceStores.SourceStore.Remap | hume-decorations/src/decorations.rs:403-421 | every source's entries are carried, and touched tells whether there were any |
| SourceStores.SourceStore.RemoveSource | hume-decorations/src/decorations.rs:286-301 | exactly that source goes, and a buffer left with none is forgotten |
| SourceStores.WithEntries | hume-decorations/src/decorations.rs:372-382 | setting one source leaves every other source's entries alone |
| SourceStores.KeptUnique | hume-decorations/src/decorations.rs:229-246 | the entries per source alone give the order they are read in |
| SourceNames.LessMeans | hume-decorations/src/decorations.rs:372-382 | sources are kept in lexicographic order of their names |
| SignLadders.Register | hume-decorations/src/decorations.rs:675-693 | the ladder stays ranked, with the source at its new priority and the others untouched |
| SignLadders.SlotIsRank | hume-decorations/src/decorations.rs:710-721 | a slot is the number of registered sources that rank above |
| SignLadders.SlotsByPriority | hume-decorations/src/decorations.rs:675-693 | the higher priority has the earlier slot, and of one priority the name that comes first |
| SignLadders.LadderUnique | hume-decorations/src/decorations.rs:683-690 | the registered sources alone give the slots, in whatever order they registered |
| SignLadders.SlotsMoveUp | hume-decorations/src/decorations.rs:692-708 | withdrawing a source moves those below it up a slot and leaves the others |
| DecorationStamps.StampsTell | hume-decorations/src/decorations.rs:555-583 | over any run of store operations and resets, two moments with one stamp for a buffer have the same entries in it, 0 means none, and no stamp is handed to two buffers |
| DecorationStamps.SoundUntilTop | hume-decorations/src/decorations.rs:569-583 | stamps stay sound through every step if and only if the 64-bit clock has not reached its top |
| DecorationStamps.UntouchedChangesNothing | hume-decorations/src/decorations.rs:957-987 | an edit that leaves a buffer's stamp alone changed none of its entries |
| DecorationStamps.AppliesAgain | hume-decorations/src/decorations.rs:957-987 | after an edit is carried through, the next edit of the resulting text can be |
| DecorationStamps.CarriedContents | hume-decorations/src/decorations.rs:957-987 | an edit carries every source's entries of every kind as its kind is carried and leaves other buffers alone |
| DecorationStamps.AddedKeeps | hume-decorations/src/decorations.rs:830-838 | adding highlights keeps those there, the new ones behind them at each place, and leaves other sources and buffers alone |
| DecorationStamps.ClearedContents | hume-decorations/src/decorations.rs:913-932 | clearing leaves the buffer nothing, every other buffer all it had and the sign sources registered |
| DecorationStamps.HasAnyMeans | hume-decorations/src/decorations.rs:879-898 | a buffer has entries exactly when some source has one, of whatever kind |
| DecorationStamps.SlottedSet | hume-decorations/src/decorations.rs:627-630 | every source with signs keeps a slot if and only if signs are set for a registered source, or to none |
| Decorations.DecorationStores.SetSigns | hume-decorations/src/decorations.rs:627-630 | one a line per source, and the buffer gets a fresh stamp |
| Decorations.DecorationStores.AddExtraHighlights | hume-decorations/src/decorations.rs:830-838 | the source's highlights grow, sorted, and the buffer gets a fresh stamp |
| Decorations.DecorationStores.RemapThrough | hume-decorations/src/decorations.rs:957-987 | every kind is carried; the buffer is stamped exactly when some kind had an entry |
| Decorations.DecorationStores.ClearEntries | hume-decorations/src/decorations.rs:913-932 | every kind's entries of the buffer go, and it is stamped |
| Decorations.DecorationStores.RemoveBuffer | hume-decorations/src/decorations.rs:936-939 | its sign sources go too |
| Decorations.DecorationStores.RegisterSignSource | hume-decorations/src/decorations.rs:675-693 | only the buffer's registry changes, and no stamp |
| Decorations.DecorationStores.UnregisterSignSource | hume-decorations/src/decorations.rs:695-708 | the registration and the source's signs go and the buffer is stamped; nothing for a source not registered |
| Decorations.DecorationStores.SignsInRange | hume-decorations/src/decorations.rs:650-666 | exactly the signs in range, each with its source's slot |
| Sexprs.SexprReader.ReadSexpr | scripts/sync_common.py:138-250 | the reader with its shared position computes the recursive parse, failures included |
| SexprAtoms.AtomMeans | scripts/sync_common.py:185-198 | a symbol, a flag and an integer, each as its own document, read as themselves |
| SexprAtoms.IntsAreNumerals | scripts/sync_common.py:185-198 | a token is taken for an integer if and only if it is a sign, if any, and digits with single underscores between |
| SexprAtoms.IntegerReads | scripts/sync_common.py:185-198 | every integer has a spelling that reads back as it |
| SexprLayout.QuotedReads | scripts/sync_common.py:26-27 | an escaped string reads back as itself, for any mix of quotes and backslashes |
| SexprLayout.ReadsDoc | scripts/sync_common.py:138-250 | any well-spaced text of a nested value of symbols, flags, integers, strings, lists, vectors and pairs reads as the value and nothing more is consumed |
| SexprLayout.GeneratedReads | scripts/sync_common.py:62-65 | a generated file reads as its one value, to the end of the text |
| SexprLayout.UnclosedFails | scripts/sync_common.py:206-240 | a list or vector that is not closed is refused as such |
| SexprLayout.UnclosedStringFails | scripts/sync_common.py:166-183 | so is a string that is not closed or ends in a lone backslash |
| SexprLayout.LongPairFails | scripts/sync_common.py:227-239 | so is a dotted pair with more than two halves |
| SexprLayout.TrailingRefused | scripts/sync_common.py:245-250 | a file with anything behind its value, or with no value, is refused |
| SexprLayout.TaggedListReads | scripts/sync_common.py:30-31 | a tagged list of strings reads as its tag and the strings |
| SexprLayout.QuotedListReads | scripts/sync_common.py:34-37 | a quoted list is read as the symbol `'`, its list left to read |
| SexprLayout.QuotedListRefused | scripts/sync_common.py:34-37 | so a file that holds one is refused for trailing content |

## Findings

Properties that do not hold of the code on every input, each with an input and the exact condition:

- **Deletion flag.** A position is reported kept although its character is deleted when the change inserts text right
  before it, as undoing a replacement does. Exact for all positions if and only if no deletion follows an insertion
  (`PositionMaps.FlagExact`).
- **Joined lines.** "Remapping maps distinct lines to distinct lines" fails when a replaced line break is undone
  (`PositionMaps.UndoneReplacementJoins`, `EntryRemaps.RemapJoinsLines`). It holds if and only if the edit joins no two
  kept lines (`JoinedLines.LinesStayApart`, `EntryRemaps.RemapOnePerLine`), a condition read off the edit's ops.
- **Explicit null as error data.** A response error whose data is an explicit null comes back with none
  (`MessageWire.WireRoundTrip`). The writer also emits bodies over 256 MiB, which the reader refuses
  (`Codec.FrameRoundTrip`).
- **Long header lines.** A header line whose break comes past 64 KiB is read or refused by how the bytes are chunked
  (`Framing.ChunkingMatters`, exact condition in `Framing.LineOfContents`).
- **Wrap inside the indent.** With an indent that holds a blank which is no space before a space, the first wrap
  splits the indent and a cell ends past the wrap column (`LineWrap.NonBreakingIndent`). That is the only way for
  single-column lines (`LineFormatting.FormatBufferLine`).
- **Clip at 65535 columns.** On a grid 65535 wide a glyph past the right edge is not clipped (`Grids.OverhangBreaks`,
  exact guard in `Grids.ClipTest`).
- **Glyph width in the diff.** A glyph more than two columns wider than the gap can start a run inside itself
  (`GridDiff.WiderGlyphBreaks`); the bound is exact.
- **Quoted lists.** `scheme_list` output does not read back (`SexprLayout.QuotedListRefused`); it goes into evaluated
  programs.
- **Ended requests are still sent.** The flush leaves out cancelled and timed-out requests (`ClientRuns.GoneBy`), but a
  request drained as stopped while it was queued is sent after the handshake (`ClientRuns.DrainedIsSent`). A request in
  the queue has ended if and only if it was drained as stopped or answered while queued (`ClientRuns.QueuedNotPending`).

## Left out

- Grids.Grid.SetGlyph: requires that the clip test does not saturate; what a saturating write does is in OverhangBreaks.
- Sync.ContentChanges: no result where the source panics, on a line or column past 32 bits; a result is guaranteed while four times the text sizes fit.
- Sync.ApplyEventsToMirror: replays events whose ends encode offsets, as all emitted ones do; the source's replay panics on ends inside a character or out of order.
- Sexprs.AtomValue: integers are ASCII digits with underscores; Python's int() also takes other Unicode digits and trims Unicode blanks inside an atom, which this model reads as symbols.
- MessageWire.WireRoundTrip: ids and codes are unbounded integers, and the positional (array) form the JSON library also accepts for records is not modelled.
- Codec.ReadMessage: past the bound on header lines no result is promised from the bytes alone, because it depends on the chunks (Framing.LineOfContents); header values are trimmed of ASCII blanks only; a serializer and parser that undo each other stand for the JSON library.
- LspClients.LspClient.SendOrQueue: a request is sent under an id the client issued and has not ended as cancelled or timed out, which is how the source's own callers use it; other ids are not modelled.
- LspClients.LspClient.OnEvent: notification payloads are passed on unclassified, and the parsed capabilities are a parameter.
- LineFormatting.FormatBufferLine: no horizontal window, whitespace indicators, newline indicator or trailing inlay text; the 16-bit wrap index does not overflow.
- Hunks.ChangeHunksWithin: a hunk's word spans are modelled beside it, in EditRanges and WordSpans, not as a field of it.
- Decorations.DecorationStores.RemapThrough: an edit's entries must stand on lines of its text, as the source asserts; scope names, and reads that only flatten or filter, are left out.
- Threads, processes, pipes and shutdown timing of the language client, and the recovery of malformed notifications.
- The foreign text diff, its word budget, Unicode segmentation and width tables.
- Selections, owners, ages and persistence of revisions.
- Snapping bracket results to grapheme clusters, quote pairs and tag pairs.
- Rendering, themes, status and tab lines, registers, options and the rest of the user interface.
