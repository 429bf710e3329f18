# winsmux: verified models of its deterministic machines

winsmux is a terminal multiplexer for Windows with a control layer for agents. Most of it is
input and output; these modules model the small deterministic machines inside it and prove what
they do over every input and every run.

Each program loop or object that changes state is a Dafny class or method with loop invariants,
proved equal to a specification function; the lemmas are about that function and its runs.

| file | what it models |
|---|---|
| `BracketPaste.dfy` | the detector of bracketed pastes in a stream of key events |
| `Config.dfy` | `%if` / `%elif` / `%else` / `%endif` in configuration files |
| `Terminal.dfy`, `CopyCursor.dfy`, `CopyYank.dfy`, `CopyBracket.dfy`, `CopyState.dfy` | copy mode: the scrollback window, cursor moves, copying a selection, bracket jumps, saved state per pane |
| `HostPattern.dfy`, `KnownHosts.dfy`, `HostTrust.dfy` | host patterns, the known_hosts scan, the trust record of an alias |
| `PackOrder.dfy`, `Json.dfy`, `PackJson.dfy`, `ContextPack.dfy` | bounded, canonical context packs, their JSON text and its reader, and their trimming to a byte limit |
| `EventFollower.dfy` | following an append-only event log with a torn last line |
| `ControlWire.dfy`, `ControlFilter.dfy` | markers and escaping of the control protocol, and the client-side filter of its lines |
| `CommandLine.dfy`, `ClientPaste.dfy` | the quote-aware parser and the client's timed paste buffer |
| `Text.dfy`, `Decimal.dfy`, `Ints.dfy` | string operations, decimal numerals and bounds used by the others |

Functions of files outside the model (format expansion, command execution, the digest, the JSON
reader of control frames, the mapping of an event line, path safety) are parameters, so every
result holds for any choice of them; what a result needs of a parameter is a named predicate
(`Codec.Sound`, `World.FixedDigest`, `World.DigestsAreSha256`). Time is an integer clock. Screen sizes stay within the
program's machine integers.

## Findings

Statements one might expect that do not hold of the code, each with the exact condition:

- An open sequence is recognised exactly when its first key finds nothing pending and no timeout
  check comes 5 ms or more after one of its first five keys; otherwise every key of it is delivered
  (`BracketPaste.OpenRecognisedIff`). So a stray ESC just before it loses the paste, because the key
  that breaks a partial match is replayed, never reconsidered, unless a timeout check gives that ESC
  up in time (`BracketPaste.StrayEscapeIff`, with `BracketPaste.StrayEscapeLosesPaste` for input
  without timeout checks), and so does a pause after its own ESC
  (`BracketPaste.SlowEscapeLosesPaste`). A bracketed text is one
  paste exactly when no timeout check broke the open sequence (`BracketPaste.PasteRoundTrip`).
- Entering copy mode resets the recorded scroll offset but not the parser's scrollback; the two
  agree afterwards exactly when the pane showed live output (`CopyCursor.EnterKeepsOffsetIffLive`,
  `CopyCursor.EnterMisplacesByScrollback`, with an example in
  `CopyCursor.ReenteringWhileScrolledDiverges`).
- Copying a selection is commented as restoring the scrollback. It slides the window to the recorded
  offset, which is where it was exactly when record and parser agreed
  (`CopyYank.CopyPane.ReadSelection`); after entering copy mode that is when the pane showed live
  output or the window has slid since (`CopyCursor.CopyingKeepsWindowIff`).
- A cursor reported by a single reading of the event log counts a torn last line. A follower
  started from it keeps it exactly when there was no such line or its newline has arrived by the
  first poll; otherwise it starts again from the top (`EventFollower.OneReadingCursorKeptIff`).
- Inside a safe control block one payload line does come out verbatim: a first payload that already
  reads like the fixed error message (`ControlFilter.PayloadEchoedIff`).
- A list of arguments survives quoting and parsing exactly when none of them is empty
  (`CommandLine.RoundTripIffNoEmptyArgument`).
- The branch of the paste timer that looks for a confirmation at the top of the loop is never taken
  (`ClientPaste.NeverConfirmedAtTop`).
- A burst of pasted ASCII can still be split into keystrokes, when a non-ASCII character joins it
  and then a key interrupts, or the first 20 ms end with fewer than 20 bytes pending; those are the
  only ways (`ClientPaste.BurstLeavesIff`, with inputs in `ClientPaste.AccentSplitsBurst` and
  `ClientPaste.AccentSplitsStage2`). If only ASCII joins it, it leaves at the front of one paste
  (`ClientPaste.AsciiBurstSentWhole`).
- The size thresholds of the paste timer compare bytes where the comments in `core/src/client.rs`
  speak of characters. The decisions agree except for a text with a non-ASCII character that has
  fewer than 20 characters but at least 20 bytes (`ClientPaste.ByteTestIsCharacterTestIff`, with an
  input in `ClientPaste.SevenWideCharactersAreABurst`).

## Model

| member | source | states |
|---|---|---|
| BracketPaste.Detector.Feed | core/src/app.rs:116-192 | one key takes the detector exactly where the specification step says, including the recursive second look at a key that breaks a close match |
| BracketPaste.Detector.FlushTimeout | core/src/app.rs:94-105 | a partial open match older than 5 ms is given back whole and nothing else changes |
| BracketPaste.CloseHasNoBorder | core/src/app.rs:184-190 | at most one partial match of the close sequence is alive at any time, so looking again at the failing key alone is enough |
| BracketPaste.PasteStep | core/src/app.rs:152-191 | inside a paste a key either completes the first contiguous close sequence, and the paste is the text of all keys before it, or is consumed with the state still a function of the keys seen |
| BracketPaste.PasteRunOpen | core/src/app.rs:94-191 | over every run of keys and timeout checks without a close sequence nothing is emitted |
| BracketPaste.PasteEndsAtFirstClose | core/src/app.rs:171-183 | over every run the paste is emitted exactly at the first contiguous close sequence, with the text projection of every key before it |
| BracketPaste.OpenRecognisedIff | core/src/app.rs:94-151 | over every run of keys and timeout checks outside a paste, an open sequence starts one iff its first key finds nothing pending, if need be because a check gave it up, and no check comes 5 ms or more after one of its first five keys; otherwise every key of it is delivered, in order |
| BracketPaste.StrayEscapeIff | core/src/app.rs:94-151 | ESC, then any run whose keys are an open sequence: all seven keys are delivered and no paste starts, unless a timeout check gives the ESC up before the sequence and none breaks the sequence |
| BracketPaste.StrayEscapeLosesPaste | core/src/app.rs:118-151 | ESC followed by an open sequence with no timeout check in between, whenever the keys come: all of them are delivered and no paste starts |
| BracketPaste.SlowEscapeLosesPaste | core/src/app.rs:94-105 | a timeout check 5 ms after the ESC of an open sequence loses the paste from an idle detector too |
| BracketPaste.PasteRoundTrip | core/src/app.rs:51-192 | open sequence, text without a close sequence, close sequence, with any times and timeout checks between the keys: the output is one paste of exactly that text iff no check broke the open sequence, and then the detector is idle again |
| BracketPaste.PastedTextArrives | core/src/app.rs:51-192 | any text without the close sequence, sent between the two sequences one key per character, arrives as one paste of exactly that text iff no timeout check broke the open sequence |
| BracketPaste.TypedText | core/src/app.rs:107-192 | keys that type a text, with any keys without text among them, contribute exactly that text to a paste |
| BracketPaste.EveryKeyAccountedFor | core/src/app.rs:94-192 | over every run of keys and timeouts the key stream is, in order, the keys handed on, complete open-body-close pieces and the keys still held, and the outputs are exactly theirs |
| Config.JoinContinuations | core/src/config.rs:122-142 | the loop computes the logical lines of a file |
| Config.BrokenLineJoins | core/src/config.rs:122-142 | a line broken into any pieces by trailing backslashes joins back to one logical line, and the lines after it are unaffected |
| Config.DanglingJoins | core/src/config.rs:122-142 | pieces at the end of a file make one line even when the last one ends in a backslash |
| Config.Loader.ParseConfigContent | core/src/config.rs:101-232 | a whole file leaves the state of the flat machine run from an empty stack over its logical lines |
| Config.TopFrameSpeaksForAll | core/src/config.rs:156-198 | after any lines, nested or not, each frame's parent flag is the activity of the frame below, active implies parent active, and the top frame is active iff all are |
| Config.SkipProgram | core/src/config.rs:144-232 | inside an inactive block the printed lines of a program change neither stack nor state |
| Config.RunProgram | core/src/config.rs:144-232 | the flat machine on the printed lines of any well-formed program, from any active stack, restores the stack and leaves the state of the recursive evaluator, conditions being read in the state left so far |
| Config.TreePrintsBack | core/src/config.rs:150-198 | every sequence of lines has a tree that prints back to it with stray directives dropped and open blocks closed; a balanced sequence prints back unchanged |
| Config.FlatMachineIsRecursive | core/src/config.rs:144-232 | for every sequence of lines whatever, flat machine and recursive evaluation of its tree leave the same state |
| Config.Loader.ParseLine | core/src/config.rs:144-232 | one logical line takes the stack and the state where the flat machine's step says |
| Config.DirectiveReadsBackIff | core/src/config.rs:145-198 | the text of a conditional directive, its condition in double quotes, is classified back to it iff the condition neither begins nor ends with a quote of either kind |
| Config.HiddenReadsBackIff | core/src/config.rs:200-213 | a %hidden line with its value in double quotes gives that name and that value iff the value neither begins nor ends with a quote |
| Config.CommandReadsBack | core/src/config.rs:144-232 | any other line is the command written on it, without the blanks around it |
| Config.TruthyIff | core/src/config.rs:293-296 | a condition is false iff it expands to nothing or to a single 0, blanks aside |
| Config.LineTakesEffectIff | core/src/config.rs:144-232 | after any lines a variable is set and a command run iff every enclosing block is active, and otherwise nothing changes |
| Terminal.Buffer.VisibleRowIsLine | core/crates/vt100-winsmux/src/grid.rs:125-144 | row r of the view at scrollback S is absolute line r - S, also when S exceeds the screen height |
| CopyCursor.CopyView.MoveCopyCursor | core/src/copy_mode.rs:248-281 | the cursor's absolute line moves by dy clamped to the lines that exist, the column by dx clamped to the row, and the whole new view is the specified one |
| CopyCursor.CopyView.ScrollCopyUp | core/src/copy_mode.rs:457-465 | scrolls by the lines asked for as far as there is history, cursor cell unchanged, offset equal to the parser's scrollback |
| CopyCursor.CopyView.ScrollCopyDown | core/src/copy_mode.rs:467-475 | the same downwards, stopping at live output |
| CopyCursor.CopyView.ScrollToTop | core/src/copy_mode.rs:477-483 | the window shows the oldest line |
| CopyCursor.CopyView.ScrollToBottom | core/src/copy_mode.rs:485-491 | the window shows live output |
| CopyCursor.RunStaysInGrid | core/src/copy_mode.rs:248-281 | over every run of moves and scrolls, in step with the parser or not, the cursor stays in the grid and names a line of the buffer |
| CopyCursor.RecordInStepIff | core/src/copy_mode.rs:248-281 | over every run the recorded offset ends equal to the parser's scrollback iff it began so or the window has slid |
| CopyCursor.UnclampedMovesAdd | core/src/copy_mode.rs:248-281 | any run of moves that never asks for a line outside the buffer lands on the start plus the sum of the steps, whatever the window did |
| CopyCursor.RunShifts | core/src/copy_mode.rs:248-281 | over every mix of moves and scrolls the cursor's absolute line is the start plus the sum of what each step shifts it, and a step shifts by what it asks for iff the buffer has the lines |
| CopyCursor.CopyView.EnterCopyMode | core/src/copy_mode.rs:28-36 | entering resets the recorded offset and puts the cursor at the prompt |
| CopyCursor.CopyView.ExitCopyMode | core/src/copy_mode.rs:48-63 | leaving forgets the cursor and returns offset and scrollback to live output |
| CopyCursor.EnterKeepsOffsetIffLive | core/src/copy_mode.rs:28-36 | after entering, offset and scrollback agree iff the pane was not scrolled |
| CopyCursor.EnterMisplacesByScrollback | core/src/copy_mode.rs:28-36 | over every run since entering, the recorded line differs from the displayed one by exactly the scrollback found on entry, until the window slides |
| CopyCursor.CopyingKeepsWindowIff | core/src/copy_mode.rs:582-583 | after entering and any run of moves and scrolls, sliding to the recorded offset leaves the window in place iff the pane showed live output on entry or the window has slid since |
| CopyYank.CopyPane.ReadCells | core/src/copy_mode.rs:543-547 | reads the cells of one absolute line in column order through the current window |
| CopyYank.CopyPane.ReadWindow | core/src/copy_mode.rs:537-577 | reads every line of one window position once and in order |
| CopyYank.CopyPane.ReadSelection | core/src/copy_mode.rs:520-583 | the sliding loop terminates, collects each selected line that exists once, top to bottom, and leaves the window at the recorded offset, which restores it iff record and parser agreed |
| CopyYank.CopyPane.YankSelection | core/src/copy_mode.rs:493-599 | the text goes to the named register, the front of at most ten paste buffers and the clipboard stage; without anchor or cursor nothing changes |
| CopyYank.MarkMoveAndYank | core/src/copy_mode.rs:493-599 | mark the cell under the cursor, move and scroll in any way, copy: the text is the direct reading between the line the window displayed under the cursor when the anchor was marked and the line it displays there now |
| CopyYank.YankReadsEveryLineOnce | core/src/copy_mode.rs:506-580 | in all three modes the text is a direct reading of the selected cells, line by line from the top: the rectangle, the whole lines, or everything between the two corners in reading order; for any height, scroll offsets and direction, when both corners are cells of history and screen |
| CopyYank.DirectionIrrelevant | core/src/copy_mode.rs:506-521 | exchanging the two corners of the selection does not change the text |
| CopyBracket.BracketView.MoveMatchingBracket | core/src/copy_mode.rs:1126-1181 | the cursor lands on the first cell in reading order where the depth returns to zero, and does not move iff there is none |
| CopyBracket.MatchIsPartner | core/src/copy_mode.rs:1139-1149 | the match of an opening bracket is its closing partner further on, that of a closing bracket its opening partner before it |
| CopyBracket.MatchUnique | core/src/copy_mode.rs:1156-1180 | a bracket has at most one partner |
| CopyBracket.MatchIsInvolution | core/src/copy_mode.rs:1139-1180 | the partner of the partner is the bracket itself |
| CopyBracket.BracketView.JumpTwice | core/src/copy_mode.rs:1126-1181 | two calls in a row return to the starting cell, and without a partner the cursor never moves |
| CopyState.App.EnterCopyMode | core/src/copy_mode.rs:28-43 | entering resets exactly the listed fields and saves all of them to the active pane |
| CopyState.App.ExitCopyMode | core/src/copy_mode.rs:48-63 | leaving clears the active pane's saved state and goes to passthrough |
| CopyState.App.SaveCopyStateToPane | core/src/copy_mode.rs:66-96 | every copy field, and the search input while searching, goes to the active pane |
| CopyState.App.RestoreCopyStateFromPane | core/src/copy_mode.rs:99-127 | every copy field and the mode come back from the active pane, or passthrough |
| CopyState.App.SwitchWithCopySave | core/src/copy_mode.rs:133-149 | a focus change saves in the old pane iff copying and restores from the new one iff it holds saved state |
| CopyState.RestoreUndoesSave | core/src/copy_mode.rs:66-123 | restoring undoes saving for the fields always and for the mode iff it is one of the two copy modes |
| CopyState.CopyModeIffSaved | core/src/copy_mode.rs:28-149 | over every run copy mode is on iff the active pane holds saved copy state |
| CopyState.OnlyActivePaneChanges | core/src/copy_mode.rs:66-149 | a pane's saved state changes only while that pane is active |
| CopyState.AwayKeepsSaved | core/src/copy_mode.rs:66-149 | over every run during which a pane is never active its saved state stays as it was |
| CopyState.LeaveAndReturn | core/src/copy_mode.rs:133-149 | leaving a pane in copy or search mode and coming back by any route restores every copy field, the mode and the search input |
| HostPattern.SshGlobMatch | core/src/host_profile.rs:568-606 | the matcher terminates and accepts exactly the names that can be cut into one stretch per pattern character |
| HostPattern.MatchesIffAccepts | core/src/host_profile.rs:568-606 | recursion over the pattern agrees with the declarative cut, both ways |
| HostPattern.PatternListMatches | core/src/host_profile.rs:544-562 | a list accepts iff some positive pattern matches and no negated one does, case folded |
| HostPattern.LiteralAcceptsIff | core/src/host_profile.rs:544-562 | a name without wildcards accepts exactly itself, letter case aside |
| KnownHosts.Scanner.HostNamesMatch | core/src/host_profile.rs:533-542 | a name list matches iff it accepts the bracketed form, or the bare name on port 22 |
| KnownHosts.LiteralNameMatchesIff | core/src/host_profile.rs:533-542 | a name without wildcards stands for a host iff it is its bracketed name with the port or, on port 22, its bare name |
| KnownHosts.Scanner.ReadLine | core/src/host_profile.rs:492-526 | what a line says: nothing, a key of the host or a key revoked for it |
| KnownHosts.KeyLineSays | core/src/host_profile.rs:492-526 | a written key line, with any blanks around it and any comment, gives its third field iff its first matches the host |
| KnownHosts.RevokedLineSays | core/src/host_profile.rs:492-526 | behind the revoked marker it gives that key as revoked, for hashed names always |
| KnownHosts.OtherLinesSayNothing | core/src/host_profile.rs:492-526 | comments, hashed names without the marker and other markers give nothing |
| KnownHosts.Scanner.ScanKnownHostsText | core/src/host_profile.rs:485-531 | after any lines the accumulators stand for the sets of matching and revoked fingerprints |
| KnownHosts.KnownHostsFingerprint | core/src/host_profile.rs:451-483 | the loops over files and lines compute the set-based verdict |
| KnownHosts.RegroupingIrrelevant | core/src/host_profile.rs:451-531 | permuting lines, or moving lines between files, never changes the verdict |
| KnownHosts.FileOrderIrrelevant | core/src/host_profile.rs:451-483 | permuting the list of files never changes the verdict |
| KnownHosts.UniqueMeans | core/src/host_profile.rs:470-482 | a key is presented iff it is the only one, not revoked, and the confirmed one is not revoked |
| KnownHosts.AmbiguousMeans | core/src/host_profile.rs:470-475 | ambiguous iff two different keys match and the confirmed one is not revoked |
| HostTrust.Store.CheckAlias | core/src/host_profile.rs:154-208 | check takes the record to the specified one |
| HostTrust.Store.RegisterAlias | core/src/host_profile.rs:211-287 | register takes the record to the specified one and succeeds iff it ends registered on a unique key |
| HostTrust.RunsStayCoherent | core/src/host_profile.rs:154-333 | over every run from an empty store registered implies a confirmed fingerprint and pending never holds one |
| HostTrust.BlockedAndConfirmedPersist | core/src/host_profile.rs:154-333 | over every run blocked is never left, and a confirmed fingerprint with its hostname and port never changes |
| HostTrust.RegisteredIff | core/src/host_profile.rs:154-333 | a run ends registered with f iff some register call confirmed f from a pending record and no later command met another address, key, revocation or ambiguity |
| HostTrust.BlockedIff | core/src/host_profile.rs:154-333 | a run ends blocked iff some check found the only key revoked while nothing was confirmed, or some check or register found a confirmed fingerprint revoked, beside another key or at another address; said in key sets and addresses |
| HostTrust.ConfirmedAndNotBlocked | core/src/host_profile.rs:154-333 | a run ends registered iff some register confirmed the only, unrevoked key of a checked alias and nothing has blocked it |
| HostTrust.CheckRecordsEndpointIff | core/src/host_profile.rs:154-187 | after any run a check records the endpoint it resolved iff no fingerprint is confirmed for another address |
| PackOrder.EntryOrder | core/src/context_pack.rs:295-314 | comparing entries field by field is a total order |
| PackOrder.LeqByFields | core/src/context_pack.rs:295-314 | entries compare as in a dictionary by path or identifier, then by status or outcome in order of declaration, then by digest or reference |
| PackOrder.SortSorts | core/src/context_pack.rs:295-314 | the sorted list is ordered and a permutation of its input |
| PackOrder.SortIsCanonical | core/src/context_pack.rs:295-314 | any two arrangements of the same entries sort to the same list |
| PackJson.PackReadsBack | core/src/context_pack.rs:46-80 | a reader that looks up members by their names gets back every plain pack from its text: groups with their entries, limits, omission counters and header |
| PackJson.RemovalShortens | core/src/context_pack.rs:515-529 | removing one entry strictly shortens the JSON text although two printed counters may each gain a digit |
| PackJson.RemovalShortensIff | core/src/context_pack.rs:515-529 | over all packs, validated or not, a removal shortens the text unless it takes an empty reference that is alone in its group while both counters gain a digit |
| PackJson.EmptyReferenceWouldNotShorten | core/src/context_pack.rs:515-529 | a pack, not a validated one, for which the exception occurs |
| PackJson.ChainShortens | core/src/context_pack.rs:366-376 | every later pack of the removal chain is strictly shorter than every earlier one |
| PackJson.RelimitLength | core/src/context_pack.rs:358-370 | raising the printed limit lengthens the text by no more than the limit was raised |
| ContextPack.ValidateInput | core/src/context_pack.rs:468-513 | the loops accept exactly the inputs whose entries are all well formed and whose keys do not repeat, test and evidence references together |
| ContextPack.CheckTests | core/src/context_pack.rs:494-504 | the loop over the tests keeps identifiers and references apart |
| ContextPack.SelectGroups | core/src/context_pack.rs:316-356 | the groups take their shares of the two budgets as specified |
| ContextPack.CanonicalContextPack.RemoveOneForByteLimit | core/src/context_pack.rs:515-529 | removes the last entry of the last non-empty group, counts it twice, and reports false iff there is none |
| ContextPack.CanonicalContextPack.TrimToByteLimit | core/src/context_pack.rs:368-376 | the loop terminates with the specified trimmed pack, or fails |
| ContextPack.BuildContextPack | core/src/context_pack.rs:282-386 | the projection is the text, digest and length of the built pack, and nothing is returned iff policy, input or limit reject |
| ContextPack.TrimKeepsLongestFitting | core/src/context_pack.rs:366-376 | trimming ends with the longest pack of the removal chain that fits and fails iff the emptied pack does not fit |
| ContextPack.BuildKeepsLongestFitting | core/src/context_pack.rs:282-386 | a pack is built iff policy and input are accepted and the pack emptied of entries fits, and is then the longest one of the removal chain that fits |
| ContextPack.BuiltPackReadsBack | core/src/context_pack.rs:282-386 | the projected text, read by the names of its members, is the built pack, under the identifier, source head and limits asked for |
| ContextPack.FingerprintReadsBack | core/src/context_pack.rs:451-465 | the fingerprint is the digest of a text from which the policy reads back: its groups in the fixed order, its limits, all privacy switches off |
| ContextPack.PolicyAcceptedIff | core/src/context_pack.rs:415-450 | a policy is accepted iff it names groups, each once, with limits within the hard bounds and all privacy switches off |
| ContextPack.PackIdIff | core/src/context_pack.rs:388-413 | an identifier is 1 to 64 lower-case letters, digits and single inner hyphens, starting with a letter |
| ContextPack.TestIdIff | core/src/context_pack.rs:531-547 | a test identifier is segments with double colons between them, each starting with a letter or digit |
| ContextPack.RepoPathIff | core/src/context_pack.rs:549-563 | a path is written in a fixed alphabet, without a slash at either end, and has a safe public identity |
| ContextPack.EvidenceRefIff | core/src/context_pack.rs:565-596 | a reference is one of three schemes and a tail in a fixed alphabet, without two dots or two slashes in a row |
| ContextPack.BuiltPackDistinct | core/src/context_pack.rs:468-513 | in every built pack no two entries of a group share their canonical key, tests and evidence references together |
| ContextPack.SelectionIsGreedy | core/src/context_pack.rs:316-352 | a group not included keeps nothing, and an included one omits entries only when its budget is used up, the code map before changed files and tests before evidence references |
| ContextPack.UntrimmedIsGreedy | core/src/context_pack.rs:316-356 | so for every accepted policy and input: the groups it names get their shares of its limits and the others nothing |
| ContextPack.RemovalOrder | core/src/context_pack.rs:515-529 | over the whole chain evidence references are emptied before tests, tests before changed files, those before the code map |
| ContextPack.RaisingMaxBytesKeepsMore | core/src/context_pack.rs:282-386 | raising max-bytes keeps every entry that was kept, group by group, although limit and fingerprint are printed in the pack |
| ContextPack.BuiltPackAccounted | core/src/context_pack.rs:316-376 | in every built pack kept entries are a prefix of the sorted group, kept plus omitted is the input count, both budgets hold and the byte counter is the number trimmed |
| ContextPack.AcceptedIsFilled | core/src/context_pack.rs:468-513 | an accepted input never leads to an entry whose removal would not shorten the text |
| ContextPack.AcceptedEntryIsPlain | core/src/context_pack.rs:531-609 | every string of an accepted entry stands in JSON as it is, without escapes |
| ContextPack.BuiltPackIsPlain | core/src/context_pack.rs:282-386 | in every built pack identifier, source head, fingerprint and all strings of the kept entries stand in JSON as they are |
| ContextPack.OrderIrrelevant | core/src/context_pack.rs:282-386 | permuting any input list or the policy's include list gives the identical pack or the same rejection |
| EventFollower.Follower.Poll | core/src/condensed_events.rs:56-71 | one turn of the loop reports exactly the new complete lines up to the first unreadable one |
| EventFollower.ReadOnce | core/src/condensed_events.rs:47-53 | a single reading gives all events from the cursor on, or an error |
| EventFollower.CompleteLinesGrow | core/src/condensed_events.rs:93-125 | growth of the file never changes or removes a line a follower has seen, byte-order mark and torn tail included |
| EventFollower.LogReadsBack | core/src/condensed_events.rs:93-125 | from a log as written, with either line ending, a byte-order mark and a torn tail, a follower sees exactly the texts that are not blank |
| EventFollower.OneReadingSeesTail | core/src/condensed_events.rs:93-125 | a single reading sees those texts and the torn tail unless it is blank |
| EventFollower.ReportsMean | core/src/condensed_events.rs:56-71 | the reports are, in order and none missing, the events of the lines before the first unreadable one, each with the number of its line |
| EventFollower.FollowerIsOneReading | core/src/condensed_events.rs:56-71 | for any growth between polls the follower's whole output is one reading of the final complete lines, each event once and in order |
| EventFollower.FollowerReportsTheLog | core/src/condensed_events.rs:56-125 | over any growth of a written log a follower from the top has reported exactly the events of its non-blank lines up to the first unreadable one, and failed iff there is one |
| EventFollower.RestartFromReport | core/src/condensed_events.rs:56-71 | a follower restarted from any reported cursor, over any later polls, loses and repeats nothing |
| EventFollower.OneReadingCursorKeptIff | core/src/condensed_events.rs:47-71 | the cursor of a single reading is kept by a follower iff no torn line was counted or its newline has arrived |
| EventFollower.TornTailCounted | core/src/condensed_events.rs:93-125 | a single reading counts one line more than a follower iff a torn last line counts |
| ControlWire.MarkerReadsBack | core/src/control.rs:104-116 | every formatted begin, end and error line, with or without line end, parses back to its number and flags and to no other marker |
| ControlWire.MarkerKindsApart | core/src/control.rs:104-116 | the begin, end and error line of any command each read back as their own kind and as neither of the others |
| ControlWire.EscapeOutput | core/src/control.rs:196-209 | the loop produces the specified escape, printable characters and tabs only |
| ControlWire.EscapeRoundTrip | core/src/control.rs:196-209 | an explicit decoder recovers every byte |
| ControlWire.EscapeInjective | core/src/control.rs:196-209 | different outputs never escape to the same text |
| ControlFilter.FrameRoundTrip | core/src/commands.rs:199-225 | an encoded safe-environment frame decodes to its response |
| ControlFilter.ControlClientResponseFilter.FilterServerLine | core/src/control.rs:22-101 | one line gives the specified output and next state |
| ControlFilter.IdentityWithoutSafeBit | core/src/control.rs:22-70 | on any stream in which no begin line carries the safe bit every line passes unchanged |
| ControlFilter.BlockOutput | core/src/control.rs:36-100 | each line of a safe block shows exactly what its place in the block says: markers pass, earlier notifications wait for the first payload, the payload is rendered behind those not dropped by a marker, later payloads vanish |
| ControlFilter.BlockCloses | core/src/control.rs:36-60 | a block without payload shows the fixed error before its footer, any other just the footer |
| ControlFilter.SafeBlockTranscript | core/src/control.rs:22-101 | the complete transcript of a safe block from idle to idle, with exactly one rendered payload or fixed error |
| ControlFilter.StreamEndsIdle | core/src/control.rs:22-60 | after any formatted blocks, with or without bit 1 in their flags, closed by an end or an error line of their number, the filter is idle |
| ControlFilter.OrdinaryBlockBehindAny | core/src/control.rs:22-70 | an ordinary formatted block behind any such blocks comes out line for line |
| ControlFilter.SafeBlockShowsFrame | core/src/control.rs:62-100 | a frame in a safe block comes out as its payload behind the notes before it; later notes pass, everything else vanishes, the footer passes |
| ControlFilter.SafeBlockWithoutFrame | core/src/control.rs:36-60 | a safe block of notes alone shows the fixed error before its footer of either kind |
| ControlFilter.PayloadEchoedIff | core/src/control.rs:62-100 | after any stream a payload line of a safe block comes out verbatim iff it is the first and already is the fixed error, or is empty and later |
| CommandLine.ParseCommandLine | core/src/commands.rs:570-623 | the loop computes the specified arguments, none of them empty |
| CommandLine.QuotedParsesBack | core/src/commands.rs:570-623 | quoting every argument with the client's escapes and parsing gives the arguments without the empty ones |
| CommandLine.RoundTripIffNoEmptyArgument | core/src/client.rs:1102-1108 | the list itself comes back iff none of its arguments is empty |
| CommandLine.ParseIsStable | core/src/commands.rs:570-623 | parsing, quoting and parsing again changes nothing, for any line |
| CommandLine.AnyWritingParsesBack | core/src/commands.rs:570-623 | however each argument is written, in any mix of bare stretches, single and double quotes, and whatever blanks stand between, the arguments are read back without the empty ones |
| CommandLine.SentTextParsesBack | core/src/client.rs:1102-1108 | the line sent for a piece of text reads back as the command word and that text |
| ClientPaste.PasteBuffer.TopOfLoop | core/src/client.rs:1049-1160 | the timers at the top of a turn change state and batch as specified |
| ClientPaste.PasteBuffer.HandleEvent | core/src/client.rs:1960-2062 | each event changes state and batch as specified |
| ClientPaste.PasteBuffer.BottomOfLoop | core/src/client.rs:2405-2434 | a seen release of Ctrl+V sends the buffer, or the clipboard when it is empty, and is forgotten |
| ClientPaste.PasteBuffer.FlushPastePendAsText | core/src/client.rs:4075-4113 | an interrupting key flushes the buffer as one paste or as keystrokes |
| ClientPaste.TextConserved | core/src/client.rs:1049-1160 | over every run from any state text sent followed by text pending is the text pending at first and the text pushed, in order, across all flush paths and timers |
| ClientPaste.TypedIsSentOrPending | core/src/client.rs:1960-2062 | over every run what the events type, Enter and Tab only behind other text and plain characters only outside the window of a copying right click, is what has been sent or is pending, in order |
| ClientPaste.DroppedIffInWindow | core/src/client.rs:2014-2023 | a plain character is dropped iff it comes within 2 s of a right click that copied, unless one has been taken since |
| ClientPaste.OwnLinesSent | core/src/client.rs:1960-2062 | over every run the lines that do not come from the buffer are, in order, one per event with a line of its own and the clipboard once per release of Ctrl+V that finds the buffer empty |
| ClientPaste.OwnLineBehindText | core/src/client.rs:1216-1241 | after any run an interrupting key, Enter or Tab sends its own line behind all text typed before it |
| ClientPaste.BlanksGoAsKeys | core/src/client.rs:1097-1110 | over every run line ends, tabs and spaces go out as the keys of those names, never as text |
| ClientPaste.AlwaysConsistent | core/src/client.rs:635-651 | a start time is set iff text is pending, stage 2 implies pending text and a remembered length within it |
| ClientPaste.BurstLeavesIff | core/src/client.rs:1049-1160 | over every run three or more pending bytes stay, or are the front of a text that a single move sends, ahead of anything else from the buffer: as keystrokes iff it holds a non-ASCII character and a key interrupts or its first 20 ms end below 20 bytes, as one paste otherwise |
| ClientPaste.AsciiBurstSentWhole | core/src/client.rs:1049-1160 | over every run that adds ASCII only, an ASCII burst is never split: it stays pending until it goes out at the front of one paste |
| ClientPaste.LeavesAs | core/src/client.rs:1049-1160 | text leaves in one move and whole: as keystrokes iff a key interrupts it or its first 20 ms end while it is short or holds a non-ASCII character, as one paste otherwise |
| ClientPaste.BurstWaits | core/src/client.rs:1069-1160 | over every run nothing of a burst is sent for 300 ms after its start, unless a key interrupts or Ctrl+V is released |
| ClientPaste.GrownBurstIsExtended | core/src/client.rs:1134-1160 | a burst that has grown since a timer looked at it is not sent at the next timeout but given 20 ms more |
| ClientPaste.ReleaseSendsBuffer | core/src/client.rs:2405-2434 | at the bottom of a turn with a release of Ctrl+V the whole buffer goes out as one paste |
| ClientPaste.AccentSplitsBurst | core/src/client.rs:1091-1113 | three ASCII characters typed into the empty buffer are a burst, and with an accented one 1 ms later they leave as four keystrokes |
| ClientPaste.AccentSplitsStage2 | core/src/client.rs:4089-4108 | the same from the empty buffer through stage 2, when a key interrupts |
| ClientPaste.ByteTestIsCharacterTestIff | core/src/client.rs:1072-1084 | the burst decision by bytes is the one by characters except for non-ASCII texts of fewer than 20 characters and at least 20 bytes |
| ClientPaste.SevenWideCharactersAreABurst | core/src/client.rs:1082-1087 | seven characters of three bytes each enter stage 2 |
| ClientPaste.NeverConfirmedAtTop | core/src/client.rs:1055-1068 | no confirmation is pending at the top of any turn, so the first branch of the timer is never taken |
| ClientPaste.InterruptingKeyFlushes | core/src/client.rs:1216-1241 | when an interrupting key's own command goes out everything pending has gone before it |
| ClientPaste.TwoTimersEmptyTheBuffer | core/src/client.rs:1049-1160 | once no more characters arrive, over any number of turns at any times, a turn acts iff it comes after the deadline of the state it finds, at most two act, and with the second the buffer is empty |
| ClientPaste.BufferEmptiesInTime | core/src/client.rs:1049-1160 | among turns in order of time, one more than 300 ms after the start of the burst and one more than 20 ms after that empty the buffer and send everything pending |
| ClientPaste.EverythingPushedIsSent | core/src/client.rs:1049-1160 | after any run of turns from the empty buffer such quiet turns leave everything ever pushed sent, in order |
| ClientPaste.TypedCharacterParsesBack | core/src/client.rs:1097-1110 | the line sent for one typed character reads back as that character |

## Left out

- HostPattern.SshGlobMatch: names and patterns are sequences of characters standing for bytes; a character of several bytes would take several `?`.
- EventFollower.FollowerIsOneReading: the log is a sequence of characters, so a read that fails because a chunk ends inside a UTF-8 sequence is not modelled, nor is a log that shrinks between polls.
- ControlFilter.FrameRoundTrip: the JSON codec is a parameter that must undo itself and write no raw line ends (section 7 of RFC 8259); its text is not modelled.
- ClientPaste.TextConserved: base64 is left out, a paste command carries its text; the modes of the client in which a printable key does not reach the buffer are not modelled.
- CopyYank.YankReadsEveryLineOnce: the pane height is the height of the parser's grid; a selection that reaches outside history, screen or pane width is covered by the contract of `ReadSelection` alone, which reads the lines that exist.
- CopyState.LeaveAndReturn: every window has an active pane, and a focus change is the index of the pane it ends on; pane trees, closing panes and mode changes by other requests are left out.
- KnownHosts.KnownHostsFingerprint: which files are read, and reading them, is left out; a path is a list of lines or no file.
- HostTrust.Store.CheckAlias: resolving the alias with `ssh -G`, reading and writing the record file and its JSON are left out; a command stopped by them leaves the record alone, and saving is taken to succeed.
- ContextPack.BuildContextPack: YAML and JSON readers are left out, input arrives typed; the four entry types are constructors of one datatype so that they share one sort.
- Config.Loader.ParseConfigContent: `$NAME` expansion and the commands themselves are left out; a command is any function of the state.
- Word, paragraph and character motions, searching and text objects of copy mode: easy members of the same kind as those modelled.
- Formatting of control notifications, key tables, options, rendering, sockets and processes: no deterministic core of their own.
