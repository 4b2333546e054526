# Gantry: a verified model of the desktop client and the guest MCP bridge

Gantry runs sandboxes under a manager. Its native desktop client (`desktop/src`) polls
managers, edits and diffs organization policy, follows packet captures and installs its
own CLI; its guest helper (`cmd/gantry-guest`) proxies MCP traffic and serves files from a
jailed root. This project models the parts of both whose correctness is not visible in any
one function, and proves it for every input, every run and every reachable state:

- time: the closed-form calendar is the counted one, and the timestamp reader and printer
  invert each other exactly where they can, in every zone (`Calendar`, `Timestamps`,
  `ZonedTimestamps`, `Numerals`);
- policy: edits are accepted exactly when they should be, keep documents well formed and
  can be undone, the diff between two documents is exact and symmetric, each of its lines
  comes from the document its mark says, revision labels are least unused (`PolicyEdit`,
  `PolicyAcceptance`, `PolicyJson`, `PolicyReading`, `PolicyDiff`, `JsonDiff`,
  `DiffProvenance`, `DiffExample`, `DiffExactness`, `DiffReordering`, `DiffSymmetry`,
  `Bags`, `Revisions`);
- capture: the bounded buffer and the per-second counts stand for everything ever
  accepted, whatever the batching (`Capture`, `CaptureRate`, `Base64`);
- the window: refreshes, late answers, connection switches, installs, actions and packet
  reads interleave freely and never show or act on the wrong source, and what is shown is
  what the last answer brought (`Desktop`, `DesktopHistory`, `DesktopWindow`, `Sources`);
  local startup is latched (`StartLatch`);
- installing: at every moment of every download and failure the destination is as before
  or verified (`Install`, `Sidecar`);
- MCP: the request tracker releases its connection exactly when it may, frames do not
  depend on how bytes arrive (`RequestTracker`, `LineFraming`);
- paths: cleaning keeps what a path means and gives each meaning one text, and root
  confinement on texts is exact about components (`Paths`, `PathJail`).

Pure code is modelled by functions on values. Code that works by changing fields, buffers
or files is modelled by classes and loops. An object remembers its history: each method
keeps it in the state that history leads to, so the theorems about every run are theorems
about the object. Work in flight and
everything foreign (answers of managers, downloads, launchers, file-system calls) is part
of a run or a parameter, so a statement for all of them covers every interleaving and every
failure. `Wrappers` and `Collections` hold what the modules share.

`dafny verify dfyconfig.toml` checks the project with Dafny 4.11.

## Model

| member | source | states |
|---|---|---|
| `Calendar.TomorrowIsOneDayLater` | desktop/src/clock.rs:141-148 | turning one page of the Gregorian calendar, leap years and century rules included, adds one to `days_from_civil` |
| `Calendar.CivilInvertsDays` | desktop/src/clock.rs:141-160 | `civil_from_days` gives back every real date from its day number |
| `Calendar.CivilIsCounted` | desktop/src/clock.rs:150-160 | on every integer, `civil_from_days` is the date found by counting days one by one from 1970-01-01 |
| `Calendar.CalendarBijection` | desktop/src/clock.rs:141-160 | the two conversions are mutual inverses between all integers and all real dates |
| `Calendar.YearBoundary` | desktop/src/clock.rs:141-160 | a day lies before a year exactly when its number is below that of the year's first day |
| `Numerals.PaddedReadsBack` | desktop/src/clock.rs:91-106 | zero-padded decimals, as the formatter prints them, read back as the number |
| `Timestamps.InstantDeterminesFields` | desktop/src/clock.rs:97-106 | a real date and time of day is recovered from the instant it denotes |
| `Timestamps.FieldsDenote` | desktop/src/clock.rs:97-106 | the fields printed for any integer second are a real date and time that denote it |
| `Timestamps.FormatRoundTrip` | desktop/src/clock.rs:7-106 | `parse(format(s)) == s` if and only if `s` lies from 1970 to the end of 9999 |
| `Timestamps.FormatMillisRoundTrip` | desktop/src/clock.rs:61-96 | `parse_millis(format_millis(ms)) == ms` if and only if `ms` lies from 1970 to the end of 9999 |
| `Timestamps.ParseRoundTrip` | desktop/src/clock.rs:7-106 | an accepted text prints back as itself if and only if it is canonical: UTC, no fraction, a real date, no leap second |
| `Timestamps.ParsePanics` | desktop/src/clock.rs:7-60 | the texts on which the reader slices inside a UTF-8 character, both directions |
| `Timestamps.AccentedZonePanics` | desktop/src/clock.rs:44-54 | such a text that is well-formed UTF-8 (section 4 of RFC 3629) |
| `ZonedTimestamps.StampReads` | desktop/src/clock.rs:7-89 | every text of a date, a time, an optional fraction and a zone, said with literal ranges, reads as its local time less the zone's offset, in seconds and in milliseconds; years before 1970 are refused |
| `ZonedTimestamps.AcceptsExactlyStamps` | desktop/src/clock.rs:7-89 | the reader accepts a text if and only if it is such a stamp |
| `ZonedTimestamps.ZoneRoundTrip` | desktop/src/clock.rs:7-106 | for every second and every offset within 23:59 either way, printing the local time with that zone and any fraction reads back as the second, and as its milliseconds |
| `ZonedTimestamps.KnownMoment` | desktop/src/clock.rs:7-60 | one moment in two zones: `Z` and `+02:00` are 7200 seconds apart, the second earlier |
| `JsonDiff.DiffTree` | desktop/src/org.rs:1532-1536 | the lines pushed are the diff of the two documents, the one `DiffProvenance`, `DiffReordering` and `DiffSymmetry` are about; the mutual recursion terminates |
| `JsonDiff.DiffNode` | desktop/src/org.rs:1542-1581 | appends exactly the lines of one pair, addition or removal |
| `JsonDiff.DiffFields` | desktop/src/org.rs:1561-1569 | appends the lines of the older object's fields in order, matched by key |
| `JsonDiff.DiffNewFields` | desktop/src/org.rs:1561-1569 | appends the fields only the newer object has |
| `JsonDiff.DiffArray` | desktop/src/org.rs:1583-1630 | appends the newer items, then the older items whose key is gone |
| `JsonDiff.DiffNewItems` | desktop/src/org.rs:1598-1623 | the loop with the `unchanged` counter and its flushes appends the lines of every newer item |
| `JsonDiff.DiffOldItems` | desktop/src/org.rs:1624-1629 | appends the older items whose key no newer item has |
| `JsonDiff.Expand` | desktop/src/org.rs:1667-1705 | appends a whole value under one mark |
| `DiffProvenance.AddedExactly` | desktop/src/org.rs:1532-1705 | a line is marked Added if and only if it is written for a newer value with no partner in a pair the diff visits, or for a value inside it; so every Added line is that of a sub-value of the newer document, under its own key and depth |
| `DiffProvenance.RemovedExactly` | desktop/src/org.rs:1532-1705 | a line is marked Removed if and only if it is written for an older value with no partner, or inside it; so it is that of a sub-value of the older document |
| `DiffProvenance.KeptExactly` | desktop/src/org.rs:1532-1630 | a line is unmarked if and only if it stands for an unchanged pair, is a bracket of a changed one, or counts a maximal run of unchanged items |
| `DiffProvenance.AllAdded` | desktop/src/org.rs:1552-1557 | with no older document every line is Added, exactly those of the whole newer one |
| `DiffProvenance.ChangesAreWhole` | desktop/src/org.rs:1556-1577 | a value with no partner is written out in full, in one piece, a newer one as Added and an older one as Removed |
| `DiffProvenance.DifferenceShown` | desktop/src/org.rs:1574-1577 | a value replaced by one unlike it: all of the old one as Removed, then all of the new one as Added |
| `DiffProvenance.ExpandExactly` | desktop/src/org.rs:1667-1705 | the lines of an expansion are exactly the opening, closing or single lines of the values it unfolds, at their depths and under their keys |
| `DiffProvenance.LinesExactly` | desktop/src/org.rs:1542-1630 | the lines of a comparison are exactly those its visited pairs say |
| `DiffProvenance.VisitShown` | desktop/src/org.rs:1542-1630 | the lines of every visited pair stand together |
| `DiffProvenance.ObjectLayout` | desktop/src/org.rs:1558-1569 | two objects: brackets around the older one's fields in its order, then the fields only the newer has in its order |
| `DiffProvenance.ArrayLayout` | desktop/src/org.rs:1583-1630 | two lists: brackets around the newer items in order, each run of unchanged ones counted where it ends, then the older items that are gone |
| `DiffProvenance.BlocksInOrder` | desktop/src/org.rs:1558-1630 | the blocks of a container stand in that order |
| `DiffExample.NamesAreMatched` | desktop/src/org.rs:1583-1630 | a diff line by line: two reordered names are counted, a third is added |
| `DiffExample.ObjectTexts` | desktop/src/org.rs:1633-1640 | an unchanged object stands by its ID, wherever that is among its fields |
| `DiffExample.ScalarsText` | desktop/src/org.rs:1641-1665 | an unchanged list of scalars is shown in full up to 48 characters |
| `DiffExample.ContainersText` | desktop/src/org.rs:1641-1645 | any other list stands by its length |
| `DiffExactness.PairExact` | desktop/src/org.rs:1542-1630 | for all documents, repeated keys included: a pair shows no change if and only if it is equal, or same-keyed with unmoved parts under first-match lookup |
| `DiffExactness.UnmovedIsVerbatim` | desktop/src/org.rs:1583-1630 | with unique keys, unmoved under that lookup means the same keys and IDs with unmoved contents, and in value-keyed arrays exactly the same items |
| `DiffReordering.VerbatimIsReordered` | desktop/src/org.rs:1583-1630 | what the diff matches is equal up to order at every depth: objects by key, rules by ID, any other array by some pairing of its items |
| `DiffReordering.DiffIsExact` | desktop/src/org.rs:1532-1630 | with unique keys the diff has no Added or Removed line if and only if the documents are equal up to order at every depth and no item of a value-keyed array is itself reordered |
| `DiffReordering.PlainDiffIsExact` | desktop/src/org.rs:1532-1630 | if one document's value-keyed arrays hold only items nothing can be reordered in, such as strings and numbers, it is equality up to order at every depth, both directions |
| `DiffReordering.InnerReorderingIsShown` | desktop/src/org.rs:1589-1622 | otherwise it is not: whatever is reordered inside a value-keyed array is shown as a change |
| `DiffReordering.NestedReorderingIsShown` | desktop/src/org.rs:1589-1622 | a concrete pair: `[[1,2],null]` and `[[2,1],null]` |
| `DiffReordering.RepetitionHidesAChange` | desktop/src/org.rs:1610-1629 | a concrete pair with a repeated item that is not equal up to order and shows no change |
| `DiffSymmetry.PairSwaps` | desktop/src/org.rs:1542-1705 | swapping a pair swaps what is added and removed, at every depth and prefix |
| `DiffSymmetry.DiffIsSymmetric` | desktop/src/org.rs:1532-1705 | with unique keys, the Added lines of one direction are the Removed lines of the other as multisets of depth and text, both ways |
| `Bags.MatchedSums` | desktop/src/org.rs:1610-1629 | summing matched items from either of two lists of distinct keys counts the same terms |
| `PolicyEdit.ApplyEdit` | desktop/src/org.rs:1307-1402 | an accepted edit does what it says to the named profile, changes nothing else in the document and keeps it unique; otherwise the error of the first test that fails |
| `PolicyEdit.EditTakesEffect` | desktop/src/org.rs:1318-1400 | what each edit means: the item is there, last or in the place of the one it replaces, all others stay, only the replaced or removed key is gone, the other lists are untouched |
| `PolicyEdit.EditKeepsUnique` | desktop/src/org.rs:1307-1402 | an accepted edit keeps IDs unique across a profile's rules and network rules, and its DNS names distinct |
| `PolicyEdit.EditedKeeps` | desktop/src/org.rs:1307-1402 | an accepted edit changes the named profile only; the rest of the document, names and order stay |
| `PolicyEdit.RunKeepsUnique` | desktop/src/org.rs:1307-1402 | every run of edits keeps a document unique, and changes only profiles that were edited |
| `PolicyEdit.AddThenRemove` | desktop/src/org.rs:1307-1402 | removing what an accepted edit added restores the exact document |
| `PolicyEdit.ReplaceThenRestore` | desktop/src/org.rs:1319-1343 | replacing a network rule and putting the old one back restores the exact profile, if and only if the old one would be accepted as new |
| `PolicyEdit.ReplaceThenRestoreRule` | desktop/src/org.rs:1344-1375 | the same for any other rule |
| `PolicyAcceptance.AcceptedExactly` | desktop/src/org.rs:1305-1414 | an edit is accepted if and only if the draft has the profile and it meets what the edit asks, spelled out: the ID's characters and length, a free ID, the effect, a CIDR, a target for the action, one DNS word not yet allowed, the item to replace or remove |
| `PolicyAcceptance.RefusedForCause` | desktop/src/org.rs:1307-1414 | every refusal names a fault the edit has |
| `PolicyAcceptance.DnsNameExactly` | desktop/src/org.rs:1376-1381 | a DNS entry stands for its one word between blanks, its ASCII capitals made small, and is refused if and only if it has not one word |
| `PolicyAcceptance.TrimExactly` | desktop/src/org.rs:1377-1377 | trimming leaves the text between the blanks, both directions |
| `PolicyAcceptance.ObjectExactly` | desktop/src/org.rs:280-288 | a rule has a supported action and a target if and only if the field its action is about is filled in |
| `PolicyJson.DocumentUnique` | desktop/src/org.rs:1307-1402 | a document's JSON meets the diff's uniqueness condition if and only if names, IDs, DNS names and ports are distinct |
| `PolicyJson.RunKeepsPorts` | desktop/src/org.rs:1307-1402 | edits that repeat no port keep every rule's ports distinct |
| `PolicyReading.DocumentReadsBack` | desktop/src/org.rs:220-267 | a document is read back from its JSON, every part under its own key and optional ones left out when empty |
| `PolicyDiff.DocumentIsPlain` | desktop/src/org.rs:1307-1402 | every policy document meets the condition under which the diff is equality up to order |
| `PolicyDiff.DocumentAlike` | desktop/src/org.rs:1532-1630 | two documents' JSON is equal up to order if and only if the documents are equal but for the order of profiles, rules, ports and DNS names |
| `PolicyDiff.DocumentDiffIsExact` | desktop/src/org.rs:1532-1630 | the diff of two documents shows no change if and only if they are equal but for that order |
| `PolicyDiff.DraftDiffIsExact` | desktop/src/org.rs:1307-1630 | so does the diff of a draft made by any run of such edits against its base |
| `Revisions.LabelsDiffer` | desktop/src/org.rs:1432-1443 | a day's labels are injective in their number |
| `Revisions.PassedCandidates` | desktop/src/org.rs:1432-1443 | pigeonhole: candidates passed over are no more than the generations |
| `Revisions.NextRevision` | desktop/src/org.rs:1432-1443 | the least unused label of the day, found within (number of generations + 1) candidates |
| `Revisions.FirstRevisions` | desktop/src/org.rs:1432-1443 | a day's first two labels |
| `Base64.DecodeBase64` | desktop/src/capture.rs:14-33 | the accumulator loop, in 32-bit arithmetic and with its byte cast, decodes as the specification on unbounded numbers does |
| `Base64.EncodeBase64` | desktop/src/capture.rs:35-51 | the capture encoder is the specification on every byte string |
| `Base64.OrgBase64` | desktop/src/org.rs:1067-1083 | the organization encoder is the same specification, so the two agree |
| `Base64.DecodeInvertsEncode` | desktop/src/capture.rs:14-51 | decoding an encoding gives the bytes, for all byte strings |
| `Base64.EncodeInvertsDecode` | desktop/src/capture.rs:14-51 | encoding a decoding gives the padded text if and only if the unused bits are zero (section 3.5 of RFC 4648) |
| `Base64.KnownTexts` | desktop/src/capture.rs:35-51 | texts known to stand for their bytes |
| `Capture.Held.Merge` | desktop/src/capture.rs:139-154 | the new held capture as a function of the old one, the read and the cursor |
| `Capture.LastKeptAbsorbs` | desktop/src/capture.rs:148-152 | draining the excess read by read keeps the frames that draining once would |
| `Capture.HeldIsLastKept` | desktop/src/capture.rs:132-154 | over every run of reads, restarts and capture commands: the held frames are the last `KEEP` of all accepted since the last reset, ascend, and are no newer than the cursor; more are held exactly when a capture command has just answered with more; the rest is as the last answer said, and the cursor goes back only at a restart |
| `Capture.MixedExactly` | desktop/src/capture.rs:136-152 | exactly when a read from a restarted recorder leaves frames of two recorders: its numbers do not show the restart, and it brings some newer frames but not enough to push out the old ones |
| `Capture.HeldFromOneRecorder` | desktop/src/capture.rs:136-152 | over every run in which each restart is read while it shows, the held frames are the newest recorder's |
| `Capture.UnnoticedRestart` | desktop/src/capture.rs:136-152 | a concrete run in which they are not |
| `Capture.BatchingIsInvisible` | desktop/src/capture.rs:139-159 | however a recorder's stream was cut into reads, the held frames are determined by the stream and the cursor |
| `CaptureRate.Rate.Record` | desktop/src/capture.rs:178-199 | keeps the counters those of the batches since the last clear, so that the counts are the histogram of all their frames in the newest 600 seconds |
| `CaptureRate.Rate.Clear` | desktop/src/capture.rs:201-203 | the counters are again those of no batches |
| `CaptureRate.RecordRetains` | desktop/src/capture.rs:178-199 | recording from the histogram of some frames gives the histogram of all of them, although old counts were dropped |
| `CaptureRate.RateIsHistogram` | desktop/src/capture.rs:178-199 | after any batches since a clear, the counts are the histogram of all their frames in the newest 600 seconds |
| `CaptureRate.OrderDoesNotMatter` | desktop/src/capture.rs:178-199 | the same frames in any order and any batches leave the same counts |
| `CaptureRate.OffsetIsLeastGap` | desktop/src/capture.rs:191-195 | the offset is no larger than any batch's gap |
| `CaptureRate.OffsetIsSomeGap` | desktop/src/capture.rs:191-195 | the offset is some batch's gap |
| `CaptureRate.WindowHoldsAll` | desktop/src/capture.rs:213-225 | a window of 600 seconds or more ending at the newest frame sums to every frame of the newest 600 seconds |
| `CaptureRate.WindowIsHistogram` | desktop/src/capture.rs:213-225 | every slot of any window, ending now or at the newest frame, is how many frames of its own second were allowed and how many denied, unless it is 600 seconds or more before the newest |
| `CaptureRate.EmptyWindow` | desktop/src/capture.rs:213-225 | before any frame with a time every slot is empty |
| `CaptureRate.CountIsNumber` | desktop/src/capture.rs:183-190 | a second's counts are the numbers of frames allowed and denied within its thousand milliseconds |
| `CaptureRate.NewestTimeExactly` | desktop/src/capture.rs:183-195 | a batch's newest time is that of some frame, and none is later |
| `CaptureRate.ChartFollowsCapture` | desktop/src/packets_view.rs:72-77 | beside a held capture the counts are the histogram of the frames accepted since the last capture command, which the buffer logged too unless a recorder restarted |
| `Desktop.FetchKeeps` | desktop/src/app.rs:385-404 | starting a refresh keeps the invariant |
| `Desktop.RefreshKeeps` | desktop/src/app.rs:404-458 | a refresh coming back, stale or current, answered or failed, keeps it |
| `Desktop.SwitchKeeps` | desktop/src/app.rs:717-757 | switching the connection keeps it |
| `Desktop.InstallStartKeeps` | desktop/src/cli_install.rs:20-30 | starting a CLI install keeps it |
| `Desktop.InstallKeeps` | desktop/src/cli_install.rs:74-100 | an install coming back keeps it |
| `Desktop.JobStartKeeps` | desktop/src/ui_forms.rs:189-210 | starting an action keeps it |
| `Desktop.JobKeeps` | desktop/src/ui_forms.rs:279-322 | an action coming back, with or without packets, keeps it |
| `Desktop.ReadStartKeeps` | desktop/src/packets_view.rs:32-56 | starting a packet read keeps it |
| `Desktop.ReadKeeps` | desktop/src/packets_view.rs:57-88 | a packet read coming back, merged or discarded, keeps it |
| `Desktop.EveryRunIsSafe` | desktop/src/app.rs:385-461 | in every reachable interleaving, what is shown and the target come from the selected source, held frames from its selected sandbox in order, and each of `refreshing`, `writing`, `installing`, `packets_reading` is set exactly while one current piece of that work is in flight |
| `Desktop.OnlyStaleRefreshesAreReplaced` | desktop/src/app.rs:385-404 | whatever a new refresh replaces in the request slot is of an earlier generation |
| `Desktop.NoActionIsLost` | desktop/src/ui_forms.rs:279-288 | an action's answer is never stale: it ends the write and forbids the next until a refresh |
| `Desktop.LongOnlyAsLoaded` | desktop/src/ui_forms.rs:298-306 | no event leaves more than `KEEP` frames but a capture command's own answer |
| `Desktop.RunExtends` | desktop/src/app.rs:385-461 | a run and one more event: the end is one step further, and safe |
| `Desktop.WritesNeedAFreshView` | desktop/src/ui_forms.rs:285-288 | between an action's answer and the next manager action, a refresh begun since that answer has come back |
| `DesktopHistory.ShownIsLastAnswer` | desktop/src/app.rs:366-458 | over every run, told from its events: inventory, host, organization, target and what is available are those of the workspace last accepted since the last switch or failed refresh, and nothing if there is none; the window may act on the manager if and only if that workspace allows it and no action has come back since; it holds the frames its accepted reads and captures brought |
| `DesktopHistory.HeldFrames` | desktop/src/packets_view.rs:57-88 | over every run, the frames held are the last `KEEP` of those that came back in time since the last switch, lost manager or restart |
| `DesktopHistory.JobStartShows` | desktop/src/ui_forms.rs:189-210 | an action begins if and only if the last answer allows it and named its target, or it is on the client's own profiles |
| `DesktopWindow.Window.constructor` | desktop/src/app.rs:273-365 | a new window is in a safe state reached by the empty run, shows what that tells, and asks unless it is the demo |
| `DesktopWindow.Window.Poll` | desktop/src/app.rs:385-404 | the object stays in the state its history leads to, one event longer, safe and showing what the history tells; a refresh is then in flight unless it is the demo or an action is under way |
| `DesktopWindow.Window.Refresh` | desktop/src/app.rs:404-458 | the same; a current answer is shown part by part, a failure leaves nothing to see and no frames, a stale one changes nothing shown |
| `DesktopWindow.Window.SwitchTo` | desktop/src/app.rs:717-757 | the same; an accepted switch leaves nothing of the old source to see or act on and asks the new one, a refused one changes nothing |
| `DesktopWindow.Window.StartInstall` | desktop/src/cli_install.rs:20-30 | the same; an install is under way if and only if one was or it is offered and no action is under way |
| `DesktopWindow.Window.FinishInstall` | desktop/src/cli_install.rs:74-100 | the same; the install is over, and a refresh follows if and only if it worked and is not stale |
| `DesktopWindow.Window.Start` | desktop/src/ui_forms.rs:189-210 | the same; the action begins if and only if the history says it may |
| `DesktopWindow.Window.FinishJob` | desktop/src/ui_forms.rs:279-322 | the same; the write is over, none may follow yet, a refresh is in flight, and a capture command's frames replace the held ones |
| `DesktopWindow.Window.ReadPackets` | desktop/src/packets_view.rs:32-56 | the same; a read is in flight if and only if one was or a running capture is on screen, the manager answers and no action is under way |
| `DesktopWindow.Window.FinishRead` | desktop/src/packets_view.rs:57-88 | the same; frames that come back in time are merged and the next read follows while there are more, others change nothing |
| `StartLatch.Connector.Snapshot` | desktop/src/connector.rs:91-100 | the connector stays in the state its polls lead to; said of those polls alone, what this one returns, when it launches, and that launches are at most 1 + retries |
| `StartLatch.Connector.ReadManager` | desktop/src/connector.rs:190-237 | the same for every source but the demo |
| `StartLatch.StepReads` | desktop/src/connector.rs:190-237 | the latch fields stand for what the run left to the automatic start; a missing CLI is reported exactly when only the CLI is lacking |
| `StartLatch.LaunchesExactly` | desktop/src/connector.rs:190-237 | over every run, a poll launches if and only if the source is a local one that may start, no manager answers, a CLI is found and none was launched since the last retry |
| `StartLatch.LaunchesAreFew` | desktop/src/connector.rs:87-91 | at most 1 + retries launches in any run; none for remote, demo or no-autostart sources |
| `StartLatch.LatchedMessage` | desktop/src/connector.rs:212-236 | a latched poll repeats the launch's own refusal (or the default) if and only if the launch was refused, a read has answered since, or no missing-CLI message stood before it |
| `StartLatch.StaleMessage` | desktop/src/connector.rs:212-236 | a concrete run in which a started manager later gone is reported as a missing CLI |
| `Sidecar.ParseChecksum` | desktop/src/bootstrap.rs:300-322 | the byte loop gives the digest, or nothing for a malformed or foreign sidecar |
| `Sidecar.HexReadsBack` | desktop/src/bootstrap.rs:317-320 | the hex of any bytes reads back as the bytes |
| `Sidecar.HexPrintsBack` | desktop/src/bootstrap.rs:317-320 | hex digits print back in lower case, so a digest has one value |
| `Sidecar.SidecarReadsBack` | desktop/src/bootstrap.rs:298-322 | every form `sha256sum` writes is read back for its asset and refused for any other it names |
| `Sidecar.ChecksumExactly` | desktop/src/bootstrap.rs:298-322 | a sidecar is accepted if and only if its words are 64 hex digits alone, or with the asset's name after an optional star |
| `Sidecar.KnownHex` | desktop/src/bootstrap.rs:317-320 | two bytes and their hex |
| `Install.ExecutablePasses` | desktop/src/bootstrap.rs:448-480 | a file that begins as an executable of a platform, written from little-endian words, passes on that platform and on no other |
| `Install.PassesIsExecutable` | desktop/src/bootstrap.rs:448-480 | and nothing else passes: what passes begins as an executable of the host |
| `Install.ChunksDoNotShow` | desktop/src/bootstrap.rs:258-277 | what is received does not depend on chunks or interruptions |
| `Install.ReceivedExactly` | desktop/src/bootstrap.rs:232-283 | a download is received if and only if it was sent, its reads end without an error, it is within the limit and as long as advertised; and then it is what the reads brought |
| `Install.FirstFreeExactly` | desktop/src/bootstrap.rs:372-407 | the staging name is the first of sixteen that no file has, if it can be opened |
| `Install.Stream` | desktop/src/bootstrap.rs:232-283 | succeeds if and only if the whole body arrives, within the limit, as long as advertised and written; the file never exceeds the limit at any moment |
| `Install.CreateStaged` | desktop/src/bootstrap.rs:372-407 | the first free of sixteen names; on failure the files are as before if and only if no file was created or it could be removed |
| `Install.Staged.Drop` | desktop/src/bootstrap.rs:429-435 | an uncommitted staged file is removed |
| `Install.Commit` | desktop/src/bootstrap.rs:409-425 | the rename decides; a failed directory sync is reported after it |
| `Install.Deliver` | desktop/src/bootstrap.rs:186-199 | commits if and only if the download is complete, genuine and every later step works; otherwise the result names a step that failed |
| `Install.InstallFrom` | desktop/src/bootstrap.rs:164-200 | success if and only if every step goes well, with exactly the verified download added; on failure the files are as before if and only if no file was staged or it could be removed, and otherwise only that file is added; every state in between has the old or a genuine destination and no other file touched; the result names what went wrong |
| `Install.LeaveAFileBehind` | desktop/src/bootstrap.rs:429-435 | a concrete release and host with which a failed install leaves its staged file |
| `Install.InstallHere` | desktop/src/bootstrap.rs:164-200 | an x86-64 release with its checksum, on a working x86-64 Linux host, is installed and nothing else changes |
| `RequestTracker.Tracker.ObserveRequest` | cmd/gantry-guest/mcp.go:97-115 | the tracker stays in the state its observations lead to, and `complete` is closed exactly when their history allows a release |
| `RequestTracker.Tracker.ObserveResponse` | cmd/gantry-guest/mcp.go:117-137 | the same for a frame of the gateway, at any time |
| `RequestTracker.Tracker.FinishInput` | cmd/gantry-guest/mcp.go:145-150 | the same for the end of input |
| `RequestTracker.CompleteExactly` | cmd/gantry-guest/mcp.go:97-156 | under every interleaving, `complete` is closed exactly when input is done, some ID was tracked, nothing was untrackable and nothing is pending |
| `RequestTracker.PendingIsLargestBalance` | cmd/gantry-guest/mcp.go:97-137 | a pending count is the largest excess of requests over matching frames in any ending of the history; over replies alone, if no gateway request carried the ID while it was pending |
| `RequestTracker.ReleasedExactly` | cmd/gantry-guest/mcp.go:97-156 | release stated on the history alone, both directions |
| `RequestTracker.AnsweredExactly` | cmd/gantry-guest/mcp.go:97-137 | requests can each have a later frame (or reply) of their own if and only if every ending of the history has at least as many frames as requests |
| `RequestTracker.ReleasedMeansMatched` | cmd/gantry-guest/mcp.go:117-156 | once released, each request has a later matching frame of its own under its ID |
| `RequestTracker.ReleasedMeansAnswered` | cmd/gantry-guest/mcp.go:117-156 | that frame is a reply, if no gateway request carried the ID while it was pending |
| `RequestTracker.GatewayRequestReleases` | cmd/gantry-guest/mcp.go:117-137 | a concrete history in which a gateway's own request releases the connection without a reply |
| `LineFraming.SplitInvertsJoin` | cmd/gantry-guest/mcp.go:195-234 | frames without newlines are the frames of their join |
| `LineFraming.JoinInvertsSplit` | cmd/gantry-guest/mcp.go:195-234 | every stream is the join of its frames |
| `LineFraming.Observer.Write` | cmd/gantry-guest/mcp.go:195-218 | the observer stays in the state of the stream so far, and never buffers more than the limit |
| `LineFraming.Observer.Finish` | cmd/gantry-guest/mcp.go:220-224 | all calls made are those of the whole stream |
| `LineFraming.Observer.EmitLine` | cmd/gantry-guest/mcp.go:226-234 | one call per line: its text, oversized, or none when blank |
| `LineFraming.TrimCRExactly` | cmd/gantry-guest/mcp.go:226-234 | trimming takes all carriage returns at the end and nothing else, both directions |
| `LineFraming.ObserveChunks` | cmd/gantry-guest/mcp.go:195-234 | for any chunking, the calls are those of splitting the whole stream on newlines |
| `LineFraming.ReadLineBuffered` | cmd/gantry-guest/mcp.go:338-357 | reads exactly the next line of the stream, its end or that it is too long, over a bounded buffer |
| `LineFraming.ServeFS` | cmd/gantry-guest/mcp.go:318-336 | the frames served are a function of the stream's split |
| `LineFraming.ServerAgreesWithObserver` | cmd/gantry-guest/mcp.go:195-357 | server and observer see the same frames if and only if every line fits with its newline, or from the first that does not on there is nothing but carriage returns within the limit |
| `LineFraming.LongestLineDiffers` | cmd/gantry-guest/mcp.go:195-357 | a stream on which they differ: a line of exactly the limit |
| `Paths.CleanPath` | desktop/src/options.rs:131-150 | the component loop computes the normal form |
| `Paths.CleanKeepsMeaning` | desktop/src/options.rs:131-150 | from any directory the cleaned path leads where the original does |
| `Paths.CleanIsIdempotent` | desktop/src/options.rs:131-150 | cleaning twice is cleaning once |
| `Paths.CleanOfJoin` | desktop/src/options.rs:131-150 | clean(a/b) = clean(clean(a)/b) for relative b |
| `Paths.CleanLeavesLeadingUps` | desktop/src/options.rs:131-150 | `..` is left only as a leading run of a relative path |
| `Paths.CleanIsCanonical` | desktop/src/options.rs:131-150 | two paths clean to the same text if and only if they lead to the same place from every directory |
| `PathJail.AbsoluteIsWalk` | cmd/gantry-guest/mcp.go:479-486 | the normalised text names the place reached by walking the client path from the root |
| `PathJail.RelInRootIsExact` | cmd/gantry-guest/mcp.go:478-495 | for an absolute root, a path is accepted if and only if the root's components prefix that place's, and the answer spells the rest |
| `PathJail.RelInRootJoinsBack` | cmd/gantry-guest/mcp.go:478-495 | the answer has no `..`, is not rooted, and joined to the root gives back the normalised path |

## Left out

- All rendering, tables, charts, forms and menus: user interface without deep state.
- The manager, policy service, VMM and packet recorder: only what their answers promise is used (frames ascend and none is newer than the cursor given).
- Servers' JSON, SHA-256, TLS and process spawning: the JSON printer and the digest are parameters (the printer injective where the diff needs it), the rest are outcomes in a run.
- JSON numbers are their printed text, so two spellings of one number (`-0.0` and `0.0`) are different values here.
- `inventory.rs`, `activity.rs`, `detail.rs`, `launcher.rs`, option parsing, release tags and URLs: they would only add easy members.
- Windows paths: paths are Unix paths, with `/` as the only separator and no prefixes.
- Timestamps.FormatRoundTrip: seconds and milliseconds are unbounded integers; 64-bit overflow far outside the years stated is not modelled.
- CaptureRate.Rate.Record: counts are unbounded, so 2^32 frames in one second do not overflow; a frame carries the time its timestamp reads as, so a timestamp the reader panics on is outside this module (see `Timestamps.ParsePanics`).
- DesktopWindow.Window.Poll: the manual-retry flag is left to `StartLatch`; activity log, notices, selection, throughput and local profiles are not modelled.
- Desktop.EveryRunIsSafe: that replacing a refresh cancels it is not relied on; a replaced one may still come back, and is shown to be stale.
- StartLatch.Connector.ReadManager: texts of errors are told apart by kind; the path named in the missing-CLI text is not modelled.
- Install.InstallFrom: a release tag that does not match, an unusable directory and a client that cannot be built are one outcome, `NotReady`; progress messages, file modes and redirects are not modelled; a rename either happens or does not.
- Sidecar.ParseChecksum: the UTF-8 test is not modelled: for an ASCII asset name every body it would refuse is refused by the fields anyway.
- LineFraming.ServeFS: handling a frame, and errors of the underlying reader and writer, are left out.
- RequestTracker.Tracker.ObserveRequest: parsing a frame into request, notification, reply or untrackable input is part of the event; the grace-period timer of `wait` is not modelled.
- A launch that starts the manager after a missing-CLI attempt does not clear that attempt's message; the model follows the code, and `StartLatch.LatchedMessage` says exactly when the message shown is the launch's own.
- The comment on `Staged` says no failure leaves a partial executable; that holds exactly when the removal itself succeeds, as `Install.InstallFrom` states.
