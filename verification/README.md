# asmspy: a verified model of its core logic

`asmspy` traces a running process from outside. This project models the parts of
it that decide something, apart from `ptrace` and the terminal: the `--serve`
session protocol, the call-graph index, the JIT symbol maps, the NDJSON escaper
and the control-channel reader, the call-tree filter and its DOT export, the
process forests, the region picker, the change-gated address map, the ring log
and the offset compaction. Each is a Dafny model of the C code, branch by branch,
with proofs of what the code is for.

How the pieces fit together:

- **`ServeProtocol`, `ServeConservation`, `ServeCommands`, `ServeOutcomes`**: the command thread and the tracer
  thread as a state machine whose steps are single writes or single flag
  accesses. A run is any enabled sequence of steps, so a theorem about runs is a
  theorem about every interleaving, every engine and every client. The client
  stream is measured against a grammar (`Read`, `Scan`) that knows nothing of the
  threads; what the grammar means is proved separately, in positions of lines.
- **`GraphIndex`**: the open-addressed index as a class over a mutable slot
  array, always compared with the linear scan of the table.
- **`JitDump`, `JitDumpCut`, `JitDumpRoundTrip`, `SymbolLookup`, `Crc32`**: the
  jitdump reader on arbitrary bytes and on cut files, a writer it inverts, the
  two-tier refresh and its binary search, and the table-driven checksum against a
  bit-at-a-time register.
- **`Escape`, `ControlReader`, `ControlRoundTrip`, `ControlSearch`**: the escaper against the
  grammars of section 4 of RFC 3629 and section 7 of RFC 8259, and the reader
  that has to undo it.
- **`TreeFilter`, `TreeEdges`**: one integer that stands for a call stack, and
  caller edges recovered from depths, against the real stacks of all threads.
- **`ProcessForest`, `ForestLayout`, `Topology`**: the depth-first drawing over any
  parent relation, what the drawn rows say without the trees behind them, and its two
  users.
- **`RegionRank`, `RegionSamples`, `RegionWalk`**: the ranking of candidate regions,
  what it says about the samples themselves, and the two copies of the retry loops,
  against one policy.
- **`VmMap`, `RingLog`, `OffsetCompaction`**: the ranked, capped and gated map,
  the scrollback window, and the in-place run-length compaction.
- **`Common`**: what several modules share.

Imperative code is imperative here: classes for the index, the symbol map, the
focus state, the forest, the ring and the gate; arrays for buffers that are
filled, sorted or compacted in place; loops with invariants where the source has
loops.

## Where the code differs from what is said about it

Each of these is stated as a theorem with its exact condition, most of them also as
a concrete run, and the model follows the code.

- A `started` line without a terminal line is possible, when `pthread_create`
  fails for a `start`; `CompleteIffEveryStartGotItsThread` says that this is the
  only way, `StartWithoutThread` is such a run.
- An acknowledged pause need not hold, because opening the recorder clears it. Until
  the next pause command it holds exactly as long as no header appears on the stream
  (`PauseHoldsUntilOpen`); within one session it holds if the session's header was
  there before it, and otherwise exactly until that header appears, after which
  everything emitted is written (`PauseHoldsIff`). `EarlyPauseIsLost` is such a run.
- Truncation reported by the engine reaches the client's footer, which is marked
  exactly when something was dropped or the engine said so
  (`EveryEmissionIsAccounted`), and not the session recording, which is marked
  exactly when a pause dropped something (`RecordingHoldsEverySession`).
- A stale entry at a reused address is said to be harmless in the symbol map. It
  is not (`StaleTwin`): the jitdump tier wins everywhere exactly when no two
  different entries overlap and no entry's end reaches 2^64
  (`DumpWinsIffUnambiguous`).
- `sym_at` inspects one entry, and computes its end in 64 bits. It finds every
  covered address exactly when no entry reaches into a gap behind the seen end of
  itself or a later one (`SearchAgreesWithScanIff`).
- `sj_str` does not decode `\u`, `\b` and `\f`: it reads a string as JSON means it
  exactly when the string contains none of them (`ReadsAsJsonIff`). A string survives printing and reading
  through a buffer exactly when it fits and is UTF-8 without control characters, or
  fills the buffer and ends in the first bytes of a replacement character that the
  buffer cut (`StringRoundTrip`, `ClippedReplacement`).
- Under a module filter the exported caller may be a stale line
  (`ModuleFilterMisattributes`); the exporter draws the edge from the frame its slots
  reach exactly when that frame's module passes the filter and its address is not 0
  (`ParentIsAncestorIffShown`).
- The address-map gate advances even when a pause swallows the event, and the
  change is never repeated (`SwallowedChangeIsNotRepeated`). The client holds the
  current map exactly when the look at which it first showed was not paused or the
  target had returned to the map the client held (`ClientIsCurrentIff`), and it sees
  a version gap exactly when a swallowed map precedes one that it received
  (`GapIffSwallowedBefore`).

## Model

| member | source | states |
|---|---|---|
| `ServeProtocol.FlagsKept` | cli/asmspy.c:4893-4917 | Every step of either thread keeps what `joinable`, `running`, `stop` and `end_announced` say about the tracer: a held jack is a live thread, a thread that left unannounced was told to stop |
| `ServeProtocol.StepPlaced` | cli/asmspy.c:4839-4844 | After any step the stream's reader stands exactly where the two program counters say, except after a `start` whose thread could not be created |
| `ServeProtocol.StepKeeps` | cli/asmspy.c:5520-5694 | The joint invariant of flags, threads and stream is kept by every step of the command and tracer threads |
| `ServeProtocol.RunKeeps` | cli/asmspy.c:5484-5731 | The invariant holds after every run, for every interleaving, command sequence and engine behaviour |
| `ServeProtocol.AtMostOneTracer` | cli/asmspy.c:5592-5600 | In every reachable state there is at most one tracer thread, and none when one is about to be created |
| `ServeProtocol.StreamAlwaysReadable` | cli/asmspy.c:4747-4754 | At every moment of every run whose starts got their threads, the client stream obeys the session grammar: started, header, events, matching footer, one terminal line |
| `ServeProtocol.EndedSessionsAreClosed` | cli/asmspy.c:4831-4845 | A free jack means every session has been closed on the stream; a session that ended by itself has said so before its thread exits |
| `ServeProtocol.CompleteIffEveryStartGotItsThread` | cli/asmspy.c:5686-5691 | A finished run leaves the stream complete if and only if no `start` failed to get its thread |
| `ServeProtocol.StartedAndTerminalPairUp` | cli/asmspy.c:4849-4890 | In a finished run every `started` line has a terminal line before any other session mark, and every terminal line ends such a `started` |
| `ServeProtocol.OpenSession` | cli/asmspy.c:5646-5657 | A reader that is inside a session can point to the `started` line nothing has ended |
| `ServeProtocol.StartedIsEnded` | cli/asmspy.c:4839-4844 | On a readable stream each `started` is ended by the first session mark after it, or is still open at the end |
| `ServeProtocol.TerminalEndsOne` | cli/asmspy.c:4853-4887 | On a readable stream each terminal line ends exactly the latest `started` |
| `ServeProtocol.OpenSlice` | cli/asmspy.c:4747-4754 | Inside a slice there is one open header, and the reader's count is the number of event lines since |
| `ServeProtocol.FooterCountsItsSlice` | cli/asmtrace_ndjson.c:601-612 | Every footer closes one header, states exactly the number of event lines between, and is marked truncated if it admits a loss |
| `ServeConservation.LedgerKept` | cli/asmspy.c:167-194 | Every step keeps: events written plus events dropped equals the emissions of the open session, its truncation mark is exact, and closed footers stay accounted |
| `ServeConservation.FileKept` | cli/asmspy.c:181-188 | Every step keeps the session recording equal to its header and the event lines of all sessions so far |
| `ServeConservation.RunKeepsBooks` | cli/asmspy.c:4821-4830 | Flags, ledger and recording agree after every run |
| `ServeConservation.EveryEmissionIsAccounted` | cli/asmspy.c:230-244 | In every run the i-th footer's `events` plus `lost` is the number of times the i-th session emitted, and it is marked truncated if and only if something was lost or the engine reported truncation in that session |
| `ServeConservation.RecordingHoldsEverySession` | cli/asmspy.c:5721-5729 | A finished recording is one header, all sessions' event lines in client order, and one footer with their number, truncated exactly if a pause dropped something |
| `ServeConservation.EventsAreTheDelivered` | cli/asmspy.c:167-194 | The event lines on the stream are the bodies emitted outside a pause: none altered, repeated or reordered |
| `ServeCommands.StepKeepsGate` | cli/asmspy.c:167-194 | No step but an opposite pause command, or opening the recorder, turns the gate |
| `ServeCommands.GateHolds` | cli/asmspy.c:171-189 | Over any continuation of any run that does not turn the gate: while closed no event line is written, while open every emission is, in order |
| `ServeCommands.HeaderIffOpen` | cli/asmspy.c:150-157 | A step writes a header line if and only if it opens a recorder |
| `ServeCommands.PauseHoldsUntilOpen` | cli/asmspy.c:133-137 | Over any continuation without a further pause command, a pause holds if and only if no recorder was opened, which is if and only if the stream shows no new header |
| `ServeCommands.PauseIsTold` | cli/asmspy.c:4747-4754 | Within one session a recorder opens at most once, only before anything is emitted, so a lost pause lets every emission through |
| `ServeCommands.PauseHoldsIff` | cli/asmspy.c:5560-5581 | A pause sent to a held jack, until the next pause or session: it holds if and only if the session's recorder was already open or no header has appeared since; while it holds nothing is written, once lost every emission is |
| `ServeCommands.StreamShowsOpening` | cli/asmspy.c:4747-4754 | Which of the two it is can be read off the stream: inside a slice the recorder is open, after a `started` without a header it is not |
| `ServeCommands.WithoutPauseNothingIsLost` | cli/asmspy.c:5560-5581 | If the client never asks for a pause it receives every emitted body, over all interleavings |
| `ServeCommands.ResumeDelivers` | cli/asmspy.c:5560-5581 | A resume sent to a held jack opens the gate: until the next pause every emission is written, in order |
| `ServeOutcomes.VerdictsKept` | cli/asmspy.c:4816-4845 | Every step keeps footers and terminal lines in step with what the engines returned |
| `ServeOutcomes.SessionsEndByTheirCode` | cli/asmspy.c:4853-4887 | In every run the i-th terminal line is a skip with code c if and only if the i-th engine returned c > 0, a failure if and only if it returned a negative code, `stopped` if and only if 0; the i-th footer carries the code if positive and 0 otherwise |
| `ServeOutcomes.CodeIsTheLast` | cli/asmspy.c:5660-5665 | The session code is what the last session begun returned, 0 until then |
| `ServeOutcomes.RecordingTellsTheLastCode` | cli/asmspy.c:5721-5729 | The recording's footer carries that code if positive and 0 otherwise |
| `ServeOutcomes.BegunKept` | cli/asmspy.c:4673-4735 | Every step keeps the counts of started, refused and answered sessions equal to those asked for |
| `ServeOutcomes.SessionsBeginAsAsked` | cli/asmspy.c:5610-5657 | In a finished run there is one `started` for every thread a `start` asked for and every accepted launch, one refusal for every other session acknowledged, and every launch was answered by its verdict |
| `ServeOutcomes.TurnKept` | cli/asmspy.c:5520-5694 | Every step of either thread keeps the command thread's turn on course: what is answered, whether the jack was free, whether a thread was asked for |
| `ServeOutcomes.CommandsAreAnswered` | cli/asmspy.c:5523-5657 | Whatever the tracer does meanwhile, every command gets exactly one answer: `stop` and `pause` an acknowledgement if and only if a session held the jack when they were fetched, even if it has ended since; a `start` if and only if its arguments pass and the jack is free; a thread is asked for exactly then |
| `ServeCommands.StepKeepsEnding` | cli/asmspy.c:4893-4910 | Once a `stop` is being carried out, no step of either thread lets the command thread out of it with a tracer alive |
| `ServeCommands.StopEndsTheSession` | cli/asmspy.c:5544-5559 | After a `stop`, by the time the next command is fetched, the tracer is gone, the jack is free and the terminal line is on the stream |
| `ServeConservation.StartWithoutThread` | cli/asmspy.c:5686-5691 | A complete run whose stream is ack, started, err: the failed thread creation leaves the session open |
| `ServeConservation.EarlyPauseIsLost` | cli/asmspy.c:133-137 | A run in which a pause is acknowledged, never lifted, and the next emission is written all the same: the header came after the pause |
| `GraphIndex.EmptySlotRemains` | cli/asmspy_ghash.h:75-86 | Below full load some slot is empty, by counting distinct stored values, so every probe ends |
| `GraphIndex.PutKeeps` | cli/asmspy_ghash.h:69-72 | Storing the next entry in the first empty slot of its probe keeps every entry reachable and stored once |
| `GraphIndex.ProbeEnds` | cli/asmspy_ghash.h:55-61 | What has not been met before an empty slot is not reachable from there |
| `GraphIndex.AbsentKey` | cli/asmspy_ghash.h:44-49 | A probe that met only other keys and then an empty slot proves the key absent from the whole table |
| `GraphIndex.ScanFor` | cli/asmspy_engine.c:4172-4176 | The linear scan: the first position of the key, or none |
| `GraphIndex.Index.Find` | cli/asmspy_ghash.h:50-62 | On an allocated index, exactly the linear scan's answer; -1 without one |
| `GraphIndex.Index.FirstEmpty` | cli/asmspy_ghash.h:69-71 | The probe loop of put and rehash ends at the first empty slot from home |
| `GraphIndex.Index.Put` | cli/asmspy_ghash.h:66-73 | The index covers the table with the new entry; a dropped index stays dropped |
| `GraphIndex.Index.Grow` | cli/asmspy_ghash.h:80-111 | Success leaves room for one more entry below 70 % load with every entry indexed and a power-of-two capacity; failure drops the index; no growth when none is needed |
| `GraphIndex.Index.Rehash` | cli/asmspy_ghash.h:103-109 | Re-insertion into the new slots covers the whole table |
| `GraphIndex.IndexedTable.GetOrAdd` | cli/asmspy_engine.c:4158-4211 | The table gains the key exactly if it lacked it, the answer is its scan position, whether or not the index got its memory |
| `GraphIndex.FirstAsked` | cli/asmspy_engine.c:4177-4210 | The distinct requested keys, in first-request order |
| `GraphIndex.FirstAskedInOrder` | cli/asmspy_engine.c:4206-4210 | The keys stand in the order in which they were first asked for |
| `GraphIndex.InternAll` | cli/asmspy_ghash.h:75-79 | Over any requests with the index losing its memory at arbitrary points, the table is the list of distinct keys in first-request order |
| `Escape.Utf8LenIsTheGrammar` | cli/asmtrace_ndjson.c:38-71 | The validator returns n exactly when the first n bytes are one character by the grammar of RFC 3629 |
| `Escape.EscapeLoop` | cli/asmtrace_ndjson.c:73-117 | The loop fills the buffer with the specified text and leaves the rest untouched |
| `Escape.AsmtraceEscape` | cli/asmtrace_ndjson.c:73-119 | For every source and buffer size, text and NUL are in place within the buffer and nothing else changes; an empty buffer is left alone |
| `Escape.EscapedFits` | cli/asmtrace_ndjson.c:80-84 | The text and its NUL fit, whatever the source and capacity |
| `Escape.EscapedIsJsonBody` | cli/asmtrace_ndjson.c:85-117 | The text is a legal JSON string body and well-formed UTF-8: no escape or character is cut |
| `Escape.JsonBodyIsUtf8` | cli/asmtrace_ndjson.c:85-117 | Every legal string body is well-formed UTF-8 |
| `Escape.DecodeUnit` | cli/asmtrace_ndjson.c:85-117 | A JSON reader turns each written unit back into its character, or U+FFFD for an invalid byte |
| `Escape.EscapedDecodes` | cli/asmtrace_ndjson.c:73-119 | Decoding gives a prefix of the source with invalid bytes replaced: all of it, or as much as leaves fewer than eight bytes free; and all of it when the capacity is at least 6 * length + 2 |
| `ControlReader.ScanToken` | cli/asmspy.c:4018-4023 | The scan stops at the closing quote that no backslash hides, or at the end |
| `ControlReader.SjFind` | cli/asmspy.c:3998-4040 | The search loop agrees with the recursive search on every text, well-formed or not |
| `ControlReader.SjStr` | cli/asmspy.c:4044-4064 | -1 and an untouched buffer unless a string starts there; otherwise the unescaped text, clipped to the buffer with its NUL |
| `ControlReader.StringAt` | cli/asmspy.c:4160-4162 | An array element is the unescaped text clipped to 256 bytes with its NUL |
| `ControlReader.SjStrArray` | cli/asmspy.c:4136-4179 | The elements in order, or refusal of a malformed, over-long or empty array |
| `ControlRoundTrip.TokenInContext` | cli/asmspy.c:4019-4023 | Scanning and reading a quoted body gives the same result in any surrounding text |
| `ControlRoundTrip.JsonBodyIsSafe` | cli/asmspy.c:4019-4023 | No legal string body makes the scan for the closing quote stop early or run on |
| `ControlRoundTrip.EchoIffClean` | cli/asmspy.c:4049-4060 | What the reader makes of an escaped string is that string if and only if it is UTF-8 without control characters |
| `ControlRoundTrip.EchoBeginsIff` | cli/asmspy.c:4049-4060 | What the reader decodes begins with the source if and only if the source is clean or ends in a cut replacement character |
| `ControlRoundTrip.ClippedEchoIff` | cli/asmspy.c:4058-4063 | Through a buffer of any size the source comes back if and only if it survives: it fits and is clean, or fills the buffer and ends in a cut replacement character |
| `ControlRoundTrip.StringRoundTrip` | cli/asmspy.c:4044-4064 | An escaped string, quoted anywhere in any text and read into a buffer of any size, reads back as the original if and only if it survives that buffer |
| `ControlRoundTrip.ClippedReplacement` | cli/asmspy.c:4058-4063 | An invalid byte whose replacement is clipped to the buffer can look like the original: the second case of survival occurs |
| `ControlRoundTrip.ReadsAsJsonIff` | cli/asmspy.c:4051-4057 | Any string is read as JSON means it if and only if it contains none of the escapes \b, \f and \u |
| `ControlSearch.MeetKey` | cli/asmspy.c:4026-4037 | A quoted token before a colon, with blanks around it, is the answer exactly at the top level and when it is the key sought |
| `ControlSearch.SkipValue` | cli/asmspy.c:4002-4038 | Scanning crosses any value, of any nesting, without an answer and at the same depth |
| `ControlSearch.SkipItems` | cli/asmspy.c:4002-4038 | The same for the items of an array |
| `ControlSearch.SkipMembers` | cli/asmspy.c:4002-4038 | The same for the members of a nested object, whatever their keys |
| `ControlSearch.FindsFirstTopLevelMember` | cli/asmspy.c:3998-4040 | On every JSON object, with blanks around colons and white space between members, the search returns the first top-level member with the key, never text inside strings or nested values |
| `ControlSearch.FirstValueIsTheFirst` | cli/asmspy.c:4035-4036 | That position holds the printed value of the first member with the key; none if there is none |
| `ControlSearch.ReadsItems` | cli/asmspy.c:4141-4174 | The array loop reads a printed list of any strings, with white space around them, one by one; only the closing bracket completes it |
| `ControlSearch.ArgvRoundTrip` | cli/asmspy.c:4136-4179 | A printed argument vector of any strings, with any white space, is refused if it is too long and read otherwise; what is read is the vector itself if and only if every argument survives its 256-byte buffer |
| `ControlSearch.BrokenVectorIsRefused` | cli/asmspy.c:4148-4173 | A vector that is not closed, or an element followed by anything but a comma or the bracket, is refused |
| `Crc32.ShiftLinear` | cli/asmspy_proc.c:700 | The shift step is linear over exclusive-or |
| `Crc32.ShiftsLinear` | cli/asmspy_proc.c:699-700 | So is any number of shifts |
| `Crc32.FeedIsShifts` | cli/asmspy_proc.c:703-705 | Feeding up to 32 message bits one by one is adding them at once and shifting |
| `Crc32.HighBitsMove` | cli/asmspy_proc.c:705 | A register with clear low bits only moves down |
| `Crc32.TableStep` | cli/asmspy_proc.c:705 | One table lookup equals eight bit-at-a-time steps, for every register and byte |
| `Crc32.EightShifts` | cli/asmspy_proc.c:698-700 | The inner table loop is eight shifts |
| `Crc32.FillTable` | cli/asmspy_proc.c:696-702 | Every table entry is its index shifted eight times |
| `Crc32.Crc32File` | cli/asmspy_proc.c:696-708 | The loop equals the bit-at-a-time CRC-32 of section 8 of RFC 1952, for files of every length |
| `Crc32.PolynomialIsTheStandard` | cli/asmspy_proc.c:700 | The constant is the generator polynomial of RFC 1952, reflected, by its exponents; the register starts and ends inverted |
| `Crc32.KnownAnswers` | cli/asmspy_proc.c:696-708 | The checksum of FF FF FF FF is FFFFFFFF and that of FF FF FF 7F is 12477CDF |
| `Crc32.FeedInjective` | cli/asmspy_proc.c:703-705 | Two different registers stay different through any message |
| `Crc32.BurstIsDetected` | cli/asmspy_proc.c:690-709 | Any corruption within 32 consecutive bits, in a message of any length, changes the checksum |
| `JitDump.StepOfPrefix` | cli/asmspy_proc.c:2552-2613 | At any position, a truncated file shows the same record as the whole file, or stops, or skips past its end |
| `JitDump.RecordsOfPrefix` | cli/asmspy_proc.c:2552-2613 | From any position, the records of a truncated file are a prefix of the whole file's |
| `JitDump.TruncatedDump` | cli/asmspy_proc.c:2527-2529 | Decoding any byte prefix of any file yields a prefix of its record list |
| `JitDumpCut.NameCut` | cli/asmspy_proc.c:2572-2581 | A cut file shows a name if and only if its NUL lies before the cut |
| `JitDumpCut.StepCut` | cli/asmspy_proc.c:2552-2613 | A step on a cut file is the whole file's if and only if what it needs lies before the cut |
| `JitDumpCut.RecordsLie` | cli/asmspy_proc.c:2407-2439 | Every record kept has its fields at the byte offsets of the format, and its name clipped to 255 bytes; records do not overlap |
| `JitDumpCut.CutDump` | cli/asmspy_proc.c:2527-2529 | Reading a cut dump yields exactly the records whose needed part lies before the cut: every load whose name's NUL, and every move whose fixed fields, were written |
| `JitDumpCut.DumpIff` | cli/asmspy_proc.c:2535-2539 | A file is read as a dump if and only if it has 40 bytes, the magic bytes and a header size of at least 40 |
| `JitDump.ReadName` | cli/asmspy_proc.c:2565-2580 | The name loop finds the NUL within record and file, and clips the name to its buffer |
| `JitDump.ReadRecord` | cli/asmspy_proc.c:2552-2610 | One turn of the record loop, for every byte sequence: keep, skip or halt |
| `JitDump.FindNewest` | cli/asmspy_proc.c:2601-2606 | The backward search finds the newest load with the index |
| `JitDump.SymbolMap.Apply` | cli/asmspy_proc.c:2581-2606 | A load appends; a move changes the newest load with its index, and nothing before this dump |
| `JitDump.SymbolMap.JitdumpRead` | cli/asmspy_proc.c:2530-2617 | Terminates on every input and appends the table of the decoded records; -1 and no change for what is not a dump |
| `JitDump.SettledSnoc` | cli/asmspy_proc.c:2596-2607 | A later record moves a method exactly when it is a move of its index before any reload |
| `JitDump.LaterLoads` | cli/asmspy_proc.c:2592-2594 | An index is reloaded exactly when a later entry carries it |
| `JitDump.MethodsEndAtTheirLastMove` | cli/asmspy_proc.c:2596-2607 | Every entry ends at the address and size of the last move of its index before that index is loaded again |
| `JitDumpRoundTrip.FieldReads` | cli/asmspy_proc.c:2407-2431 | A little-endian field written at an offset is read back from it |
| `JitDumpRoundTrip.LoadReads` | cli/asmspy_proc.c:2560-2595 | A written load record is read with its own address, size, index and clipped name |
| `JitDumpRoundTrip.MoveReads` | cli/asmspy_proc.c:2596-2600 | A written move record is read with its new address, not its old one |
| `JitDumpRoundTrip.OtherSkips` | cli/asmspy_proc.c:2608-2612 | A record of any other type is skipped by its length |
| `JitDumpRoundTrip.DumpRoundTrip` | cli/asmspy_proc.c:2530-2617 | Reading a written dump, with any header size and foreign records, yields exactly the named loads and the moves written, in order |
| `SymbolLookup.SymAt` | cli/asmspy_proc.c:2327-2345 | The binary search selects the last entry at or below the query and accepts it by the wrapping extent test |
| `SymbolLookup.FoundIfUnshadowed` | cli/asmspy_proc.c:2331-2342 | Without shadowed entries an address is found exactly when some entry covers it |
| `SymbolLookup.MissedIfShadowed` | cli/asmspy_proc.c:2341-2344 | Any shadowed entry, one whose own end wraps included, has a covered address that the search misses |
| `SymbolLookup.SearchAgreesWithScanIff` | cli/asmspy_proc.c:2327-2345 | For all 64-bit entries, the search finds every covered address if and only if no entry is shadowed |
| `SymbolLookup.DisjointLookup` | cli/asmspy_proc.c:2324-2326 | On disjoint extents the search names entry i exactly when entry i covers the address and its end is below 2^64 |
| `SymbolLookup.SortByAddr` | cli/asmspy_proc.c:2672-2673 | A sorted permutation |
| `SymbolLookup.AddLines` | cli/asmspy_proc.c:2646-2665 | The lines kept are appended, and no others |
| `SymbolLookup.Refresh` | cli/asmspy_proc.c:2619-2675 | The new map is a sorted arrangement of the dump and the lines kept; -1 exactly when there is neither source |
| `SymbolLookup.MergedHolds` | cli/asmspy_proc.c:2661-2663 | A merged map holds every jitdump entry, and each line of the text map as often as it stands there if no jitdump entry covers its start, and not at all otherwise |
| `SymbolLookup.UnambiguousIsUnshadowed` | cli/asmspy_proc.c:2331-2342 | Entries that do not overlap or wrap shadow none |
| `SymbolLookup.EntryResolves` | cli/asmspy_proc.c:2677-2679 | In a map without overlapping or wrapping entries every covered address resolves to the entry that covers it |
| `SymbolLookup.TextMapAlone` | cli/asmspy_proc.c:2634-2674 | Without a dump the map holds exactly the lines of the text map, and every address a line covers resolves to it if none overlap or wrap |
| `SymbolLookup.DumpWins` | cli/asmspy_proc.c:2634-2636 | In any merged map without overlapping jitdump entries, an address covered by one resolves to it, whatever the text map says, if and only if its end is below 2^64 |
| `SymbolLookup.DisjointDumpWins` | cli/asmspy_proc.c:2634-2636 | In particular for disjoint jitdump extents |
| `SymbolLookup.DumpWinsIffUnambiguous` | cli/asmspy_proc.c:2634-2673 | Every covered address resolves to its jitdump entry if and only if no two different entries overlap and none ends at or past 2^64 |
| `SymbolLookup.StaleTwin` | cli/asmspy_proc.c:2669-2671 | Two entries at one start: the order the sort leaves them in decides which is named |
| `TreeFilter.FocusState.TreeFilterCall` | cli/asmspy_treefilter.h:60-84 | The in-place update computes the decision, effective depth and new focus of the specification |
| `TreeFilter.FocusState.TreeFilterRet` | cli/asmspy_treefilter.h:90-96 | The return rule on the focus integer |
| `TreeFilter.Outermost` | cli/asmspy_treefilter.h:71-73 | The index of the outermost frame whose name matches, or none |
| `TreeFilter.CallTracks` | cli/asmspy_treefilter.h:65-74 | A call keeps the integer equal to the outermost matching frame's index |
| `TreeFilter.UnwindTracks` | cli/asmspy_treefilter.h:86-96 | So does an unwind of any number of frames |
| `TreeFilter.FocusTracksTheStack` | cli/asmspy_treefilter.h:60-96 | After every sequence of calls and unwinds the integer is the index of the outermost matching frame of the real stack |
| `TreeFilter.EmittedExactlyInScope` | cli/asmspy_treefilter.h:60-84 | In every run a call is emitted exactly when some frame of its stack bears the focus (or there is none) and it passes the depth and module tests, at its depth below the outermost such frame; the negative-depth guard never fires |
| `TreeEdges.CallRemembers` | cli/asmspy.c:1204-1208 | A call keeps every live emitted frame the latest line of its thread at its depth |
| `TreeEdges.RunRemembers` | cli/asmspy.c:1198-1208 | That holds for every thread after every multi-thread run, under any filter |
| `TreeEdges.ParentIsTheAncestor` | cli/asmspy.c:1204-1207 | The parent recovered for an emitted call is the frame the 64 slots reach, at depth min(d, 63) - 1, whenever that frame was emitted: the caller itself up to depth 63 |
| `TreeEdges.ParentIsAncestorIffShown` | cli/asmspy.c:1204-1209 | At every depth and under every filter, the exporter draws an edge from the frame its slots reach (the true caller up to depth 63) if and only if that frame's module passes the filter and its address is not 0 |
| `TreeEdges.RecoveredAreTheTrueCalls` | cli/asmspy.c:1185-1223 | Without a module filter, what is recovered from the log of any run of any depth is the sequence of its calls from the frames the slots reach; within 64 levels these are the true calls |
| `TreeEdges.OneCallPerDeepLine` | cli/asmspy.c:1204-1209 | There is one call for every line at depth above 0 |
| `TreeEdges.EdgesCountTheRun` | cli/asmspy.c:1209-1221 | The edge counts are the counts of those calls at any depth; with nonzero addresses they add up to the number of lines at depth above 0, and within 64 levels they are the true call counts |
| `TreeEdges.ModuleFilterMisattributes` | cli/asmspy.c:1205-1207 | A run in which a module filter makes the export name the wrong caller |
| `TreeEdges.Enter` | cli/asmspy.c:1198-1208 | The slots hold each thread's latest address per depth, and the parent is read before the store |
| `TreeEdges.Count` | cli/asmspy.c:1209-1221 | The edge table stays free of duplicates, with exact multiplicities |
| `TreeEdges.TreeExportDot` | cli/asmspy.c:1162-1223 | For every log the edge table holds each recovered edge once with its exact count, the counts adding up to the recovered calls |
| `ProcessForest.SortIdx` | cli/asmspy.c:840-841 | A permutation ordered by class, activity and id |
| `ProcessForest.Forest.Children` | cli/asmspy.c:8115-8121 | Exactly the undrawn children, each once, in order |
| `ProcessForest.Forest.Roots` | cli/asmspy.c:8138-8150 | Exactly the processes whose parent is not listed, each once, in order |
| `ProcessForest.Forest.SortedThreads` | cli/asmspy.c:821-833 | The tasks of a process with more than one, leader first, then by activity; none otherwise |
| `ProcessForest.Forest.DrawThreads` | cli/asmspy.c:845-857 | The thread rows, in that order |
| `ProcessForest.WrittenSnoc` | cli/asmspy.c:811-857 | Drawing a process and its threads keeps the drawing equal to the process rows with their thread blocks |
| `ProcessForest.Forest.Emit` | cli/asmspy.c:793-863 | Terminates on any parent relation; draws one faithful tree rooted at the process, each process followed by its threads, marks exactly what it draws, and leaves every process it draws with all its children drawn |
| `ProcessForest.Forest.EmitAll` | cli/asmspy.c:8122-8124 | The loop over siblings keeps all of this, and keeps sibling order |
| `ProcessForest.Forest.EmitRest` | cli/asmspy.c:8153-8155 | Whatever the roots did not reach is drawn too |
| `ProcessForest.DescendantsMarked` | cli/asmspy.c:8151-8152 | Drawing all roots and all children of drawn processes reaches every descendant of a root |
| `ProcessForest.AllDrawn` | cli/asmspy.c:8129-8131 | Trees beyond the true roots start only at processes no root leads to |
| `ProcessForest.BuildTree` | cli/asmspy.c:909-932 | Every process has exactly one row, for every parent relation with cycles; the rows are those of faithful trees, and each is followed by its threads |
| `ForestLayout.TreeLayout` | cli/asmspy.c:8096-8124 | In a tree's rows only the first is at the top; every other hangs under the nearest row above of smaller depth, which is one level up and its parent's; siblings are in order |
| `ForestLayout.ListLayout` | cli/asmspy.c:8122-8124 | The same for trees side by side |
| `ForestLayout.DrawnOutline` | cli/asmspy.c:8129-8160 | The rows drawn, without the trees: each row below the top hangs under its parent's one level up, siblings are in order, the top level holds first the processes whose parent is not listed and then some none of these leads to |
| `Topology.PickerBuildTree` | cli/asmspy.c:8132-8160 | As many rows as processes, no process twice, with that outline in terms of the listed pids and parent pids, siblings by pid |
| `Topology.AggregateNew` | cli/asmspy.c:877-907 | A task of a new group adds an aggregate with its own parent and count |
| `Topology.AggregateAgain` | cli/asmspy.c:891-906 | A task of a known group adds its count; a leader's parent wins |
| `Topology.Aggregate` | cli/asmspy.c:871-907 | One aggregate per tgid, with the exact sum of its tasks, their positions, and the leader's parent |
| `Topology.ParentIsTheLeaders` | cli/asmspy.c:886-906 | A process's parent is its last leader's word, or its first task's if it has no leader |
| `ProcessForest.RowsSumToTotal` | cli/asmspy.c:909-932 | Summing over the rows of a permutation is summing over all processes |
| `Topology.MembersCarryAll` | cli/asmspy.c:900-902 | The recorded tasks of a group carry exactly its invocations |
| `Topology.BlockAddsUp` | cli/asmspy.c:823-857 | The threads drawn under a process are exactly its tasks, each once, leader first, then by activity, then by id, and their counts add up to the process's own |
| `Topology.AllBelow` | cli/asmspy.c:844-857 | Every thread row stands below the row of its process, with nothing but threads between, one level deeper |
| `Topology.TopoBuildRows` | cli/asmspy.c:867-938 | One process row per tgid, with the outline of a forest in terms of tgid and parent, most active siblings first, whose counts add up to the total over all tasks; under each process with several tasks one row per task, one level deeper, whose counts add up to the process's |
| `RegionRank.AddExact` | cli/asmspy_autoregion.h:163-183 | One sample keeps the table exact: sums, counts and first-come admission |
| `RegionRank.FoldExact` | cli/asmspy_autoregion.h:141-184 | The table holds exactly the first `out_cap` distinct symbols, each with the sum and number of all its samples, also those after the table filled up |
| `RegionRank.FoldIn` | cli/asmspy_autoregion.h:163-183 | One turn of the folding loop on the array |
| `RegionRank.InsertAt` | cli/asmspy_autoregion.h:190-198 | The shifting loop inserts the key into the sorted part, and moves nothing above |
| `RegionRank.InsertRanked` | cli/asmspy_autoregion.h:190-198 | Insertion keeps a strict ranking strict |
| `RegionRank.SortInPlace` | cli/asmspy_autoregion.h:189-199 | The array is sorted in place and the rest is untouched |
| `RegionRank.SortRanks` | cli/asmspy_autoregion.h:186-199 | The sort is a permutation into strictly descending weight, ties by ascending address |
| `RegionRank.Rank` | cli/asmspy_autoregion.h:132-201 | The array ends as the ranking of the qualifying samples |
| `RegionRank.AutoregionRank` | cli/asmspy_autoregion.h:132-201 | The same, for entry arrivals: not returns, on the start of a sized symbol of an admitted module |
| `RegionRank.AutoregionRankIp` | cli/asmspy_autoregion.h:251-308 | The same, for residency: inside the extent of a sized symbol of an admitted module |
| `RegionRank.RankingIsExact` | cli/asmspy_autoregion.h:120-131 | The ranking is strict, holds exactly the first `out_cap` distinct symbols, each with its exact weight and site count |
| `RegionRank.RankingUnique` | cli/asmspy_autoregion.h:186-199 | Two strict rankings of the same addresses and weights are the same list |
| `RegionRank.SumsIgnoreOrder` | cli/asmspy_autoregion.h:163-172 | A symbol's sum and count do not depend on the order of samples |
| `RegionRank.RankingIgnoresInputOrder` | cli/asmspy_autoregion.h:127-129 | With room for every qualifying sample the ranking is the same for every order of them |
| `RegionRank.RankIgnoresSampleOrder` | cli/asmspy_autoregion.h:246-250 | Both rank functions, sized by their input, give the same addresses, weights and sites for every permutation of it |
| `RegionSamples.FoldSound` | cli/asmspy_autoregion.h:163-183 | The table's entries carry what the first qualifying sample said of the symbol, and a symbol is missing only if the table is full of symbols seen before |
| `RegionSamples.VerdictRanking` | cli/asmspy_autoregion.h:186-200 | That holds of the ranking, which is in descending weight and ascending address, with exact sums |
| `RegionSamples.EntryRanking` | cli/asmspy_autoregion.h:132-201 | In terms of the edges: every entry is a symbol that non-return edges onto its start arrive at, sized and of an admitted module, with its own name, size and module, the sum of their counts and their number; with room for every edge no such symbol is missing, otherwise only ones first seen after the table filled |
| `RegionSamples.ResidencyRanking` | cli/asmspy_autoregion.h:251-308 | The same in terms of the residency samples, inside the 64-bit extent of the symbol |
| `RegionWalk.HeadlessWindows` | cli/asmspy.c:3216-3239 | The window loop of the command follows the policy |
| `RegionWalk.HeadlessChain` | cli/asmspy.c:3196-3261 | The sampler chain of the command follows the policy |
| `RegionWalk.HeadlessArm` | cli/asmspy.c:3328-3372 | The candidate loop of the command follows the policy |
| `RegionWalk.ServeWindows` | cli/asmspy.c:4501-4533 | The session's window loop follows the same policy and reports each retried window |
| `RegionWalk.ServeChain` | cli/asmspy.c:4459-4550 | The session's sampler chain follows the same policy, with its idle picks |
| `RegionWalk.ServeArm` | cli/asmspy.c:4582-4626 | The session's candidate loop follows the same policy and announces each candidate before arming it |
| `RegionWalk.WindowsBounded` | cli/asmspy_autoregion.h:351-358 | One sampler is asked at most three times; only empty windows are retried; an empty end means all three were used |
| `RegionWalk.ChainDisciplined` | cli/asmspy_autoregion.h:416-451 | Switches go to the next sampler, directly after a refusal, never when forced, until an answer or the last sampler |
| `RegionWalk.ChainAsks` | cli/asmspy.c:3217-3239 | Every answer of a chain is what the oracle says at its turn |
| `RegionWalk.SamplersInOrder` | cli/asmspy_autoregion.h:416-451 | For every oracle: the forced sampler, or IBS where there is one and software sampling where not, comes first; then software sampling after IBS and ptrace after that, each directly after a refusal and never when forced; at most 3 windows each and 9 in all; every answer is the oracle's at its turn |
| `RegionWalk.CandidatesInRankOrder` | cli/asmspy_autoregion.h:351-358 | For every outcome: candidates are armed in rank order, each at most once, stopping at the first entered or the last there is |
| `VmMap.RankingUnique` | cli/asmspy_vmmap.h:47-56 | Two strict rankings of the same rows are the same list |
| `VmMap.PermutedBases` | cli/asmspy_vmmap.h:55 | Distinct bases survive any permutation |
| `VmMap.KeepsTheBest` | cli/asmspy_vmmap.h:141-145 | With distinct bases, sort-then-cap keeps the best 256 spans, or all if fewer, executable first, then longer, then lower, and the same ones for every row order and every sort |
| `VmMap.InsertionPoint` | cli/asmspy_vmmap.h:141 | Where a span belongs in a sorted list |
| `VmMap.SortThenCap` | cli/asmspy_vmmap.h:141-146 | A sorted permutation of the rows, capped at 256 |
| `VmMap.LittleInjective` | cli/asmspy_vmmap.h:167-179 | Eight little-endian bytes determine a 64-bit value |
| `VmMap.StringSplit` | cli/asmspy_vmmap.h:181-184 | A terminated string is determined by the bytes, whatever follows |
| `VmMap.RowSplit` | cli/asmspy_vmmap.h:173-185 | The bytes of a row determine the span, whatever follows |
| `VmMap.DigestUpdates` | cli/asmspy_vmmap.h:161-185 | The bytes fed to the hash, in order |
| `VmMap.DigestBytesInjective` | cli/asmspy_vmmap.h:155-160 | The bytes determine total, readable flag and every span |
| `VmMap.VmGate.constructor` | cli/asmspy.c:5674-5685 | The per-session reset: nothing remembered, version 0 |
| `VmMap.VmGate.VmmapEmit` | cli/asmspy.c:3863-3934 | One look updates digest, version, events and notes as specified, in its three branches: unreadable, not fitting, fitting |
| `VmMap.RefreshKeeps` | cli/asmspy.c:3910-3931 | Every look keeps: the memory is the digest of the last map that fitted, the events are the changes, the notes are the misfits |
| `VmMap.RunKeeps` | cli/asmspy.c:3863-3934 | For every sequence of looks, fitting or not, paused or not, the digest gate emits exactly the changes of the map, found by comparing the maps themselves and numbered from 0, and a note for every map that did not fit |
| `VmMap.LogIsCurrent` | cli/asmspy.c:3910-3931 | The changes end with the last map that fitted, are numbered 0, 1, 2, ..., and no two in a row are equal |
| `VmMap.ShowTheSameIff` | cli/asmspy.c:3876-3898 | Two looks show the same map if and only if neither could be read, or both could with the same total and spans |
| `VmMap.ClientIsCurrentIff` | cli/asmspy.c:3921-3931 | Whatever fits and whatever is paused, the client holds the last map that fitted if and only if the look at which that map first showed was not paused, or the map the client held by then was the same |
| `VmMap.ClientIsCurrent` | cli/asmspy.c:3910-3931 | Without a pause the client always holds the last map that fitted, never the same twice in a row, with versions 0, 1, 2, ... |
| `VmMap.GapIffSwallowedBefore` | cli/asmspy.c:3928-3931 | A received version differs from the one the client expects next if and only if a swallowed map precedes a received one |
| `VmMap.NothingNew` | cli/asmspy.c:3921-3926 | Any number of looks at the current map, or at maps that do not fit, change nothing |
| `VmMap.SwallowedChangeIsNotRepeated` | cli/asmspy.c:3921-3931 | After a swallowed change, any number of further looks that show the same map or do not fit deliver nothing: the client keeps the map from before |
| `RingLog.WindowIsTheTail` | cli/asmspy_logview.h:20-37 | The window ends at the clamped bottom and has min(height, available) lines |
| `RingLog.OtherSlot` | cli/asmspy.c:5819 | Two lines less than a ring apart have different slots |
| `RingLog.LogBuffer.Push` | cli/asmspy.c:5816-5823 | The unbounded history gains one line, and its last lines stay in their slots |
| `RingLog.LogBuffer.Draw` | cli/asmspy.c:5838-5854 | The lines drawn are exactly that contiguous slice of the unbounded history, for every height and position |
| `OffsetCompaction.NewRun` | cli/asmspy.c:367-370 | A new value starts a run of one, above all earlier values |
| `OffsetCompaction.SameRun` | cli/asmspy.c:371-373 | A repeated value lengthens the last run |
| `OffsetCompaction.Compact` | cli/asmspy.c:358-375 | In place, the first `nd` slots hold the strictly increasing distinct offsets, each with its exact multiplicity, the counts summing to the input length |

## Left out

What the model assumes:

- Memory allocation fails only in `asmspy_gh_grow`; elsewhere it is assumed to succeed.
- Counters and sums are unbounded integers: overflow of the 64-bit event, arrival, invocation and edge counters and of the 32-bit execution counts is not modelled. Addresses wrap at 64 bits where extents are added, in `sym_at` and the residency test.
- Index slots are 32 bits wide; tables are assumed to stay below 2^32 - 2 entries. Masking with `cap - 1` is the remainder by `cap`, since the capacity is a power of two.
- `qsort` promises a sorted permutation and nothing else: the methods that need one contain an insertion sort, and the theorems quantify over every sorted arrangement where ties could matter.
- SHA-256 is taken as free of collisions.
- Threads interleave at single flag accesses and single locked writes, in a sequentially consistent order. The unlocked write of `paused` is one such step.
- The verdicts of the argument checks of `start` and `launch`, and the engines and samplers, are arbitrary oracles.
- Liveness is not modelled: that a stopped engine returns, that `pthread_join` and the signals that hurry it come back.

Deliberate limits of single members:

- Escape.EscapedDecodes: the JSON reader it is stated against takes `\u` escapes below 0x80 only, which are the ones the escaper writes.
- Escape.AsmtraceEscape: the source is a byte sequence without its NUL; a null pointer is the empty sequence.
- Crc32.Crc32File: mapping the file, and the failure to do so, is not modelled; the input is the file's bytes.
- ControlSearch.FindsFirstTopLevelMember: the key sought is compared with the printed key, as the code does, so a key with escapes is found by its printed form. White space inside empty brackets, and line breaks around a colon, which the reader does not skip, are not covered.
- SymbolLookup.Refresh: perf-map lines arrive parsed; `sscanf` and the trimming of names are not modelled.
- JitDumpRoundTrip.DumpRoundTrip: records below 4 GiB and names without NUL, as the format has it.
- ControlRoundTrip.StringRoundTrip: the printer's buffer is assumed to hold the whole string, six bytes for each of its bytes and two more; what a smaller one keeps is stated by Escape.EscapedDecodes.
- VmMap.VmGate.VmmapEmit: the text of the event and of the note is not modelled; a look says whether its body fits. A failed parse or allocation, which emits nothing, is not a look.
- Topology.TopoBuildRows: executable and thread names, connectors and the text of rows are not modelled.
- RingLog.LogBuffer.Draw: the clipping of lines to the pane's width and to the line buffer, and the cursor highlight, are not modelled.
- TreeEdges.TreeExportDot: the edge table only; node labels and the DOT text are not modelled.

Not modelled at all:

- The `ptrace` engines, the ncurses screens, the `/proc` readers, ELF parsing, demangling, sockets, fork and exec of a launched target, signals.
- `asmspy_resolve` with its miss budget and the tier order of resolvers: a short rate limit over the lookups modelled here.
- In the tree engine: `exec` and `fork` resetting a thread's call stack, the cap of 4096 frames beyond which calls are no longer pushed (cli/asmspy_engine.c:1998-2006), and indirect calls that are pushed at the call site and dropped when a signal handler is entered instead (cli/asmspy_engine.c:4700-4717). The stacks of the model are the unbounded ones the engine stands for.
- `df_pass`, code-image versions, skip reasons and `steps_total`: fields carried along without influence on the protocol.
- The parser of `/proc/<pid>/maps` rows and the builder of the map's JSON body.
- The remaining JSON readers of the control channel (numbers, booleans) and the command-line flags.
