# panic-parse in Dafny

A model of panic-parse's crash-dump parser. The parser reads the text a Go
program prints when it dies (the `panic: ` header, an optional
`[signal …]` line, then one block per goroutine: a `goroutine N [state]:`
header and pairs of frame and file lines). It turns that text into an
error-tracking event: one exception, plus one thread per goroutine listing
its stack frames.

The repository has two copies of the parser, and both are modelled.

- **parser.go** builds the event of the `sentry-go` SDK.
  - `RootParser.Parse` is its line loop.
  - `RootNormalise` holds `eventToSentryEvent`, `panicToSentryException` and
    `goroutinesToSentryThreads`.
- **panicparse/parser.go** is the older copy.
  - Goroutine ids are integers.
  - The frames are reversed in place after the scan.
  - The event's JSON shape is written by hand in four `MarshalJSON`
    methods. `LegacyParser` and `LegacyJson` model these.

Structure:

- `Trace` holds the records the two copies share (`Panic`, `Goroutine`,
  `Frame`) and the parts of the state machine written identically in both.
  These parts are splitting the failure text on a signal line, reading the
  signal's `key=value` extras, building a frame, and attaching a source
  location.
- `Grammar` holds one hand-written matcher per regular expression. Each
  follows the leftmost-first search order of Go's `regexp`.
- `GoStrings` and `GoStrconv` model the library functions the parser calls.
  These are `strings.Split`/`Join`/`Index`, `strconv.Atoi` and
  `strconv.ParseInt(…, 0, n)`, on unbounded integers with explicit range
  checks.

Each copy's state machine is specified twice:

- `Step` is the transition on one line, and `Run` is the machine after a
  sequence of lines. `Run` keeps an invariant `Inv`: the Go pointers
  `goroutine` and `frame` always designate the last goroutine and its last
  frame, and the thread id is tied to the goroutines.
- The `Parse` methods are the Go loops. Each loop has one case method per
  state. Go's `goto restartSwitch` is the call from the StackFunc case into
  the InSignal case. Each loop is proved to compute `Run`.

The input is the sequence of lines the line scanner yields. A `Line` never
holds a newline, so the `.` of the regular expressions matches any
character of a line.

Where the tests in parser_test.go disagree with the code, the model follows
the code:

- **Empty or panic-free dumps.** parser_test.go:341-351 expects no event for
  an empty dump and for one without a `panic: ` header. `Parse` always
  returns an event (parser.go:217-221): a "crash" with an empty value, no
  threads and the "panic" mechanism (`RootParser.NoPanicLineEvent`).
- **Frames elided.** The elision marker `...additional frames elided...`
  has no `(`, so it matches parser.go's frame-descriptor expression. The
  elision test at parser.go:165 only runs when that expression fails, so the
  marker becomes one more frame and the goroutine is not marked
  (`RootParser.ElisionMarkerTakenAsFrame`). parser_test.go:294-338 expects
  two frames, while the code yields three.
- **No file.** In parser_test.go:396-429 the frame with no file line has an
  empty file name and is expected to be not in-app. Under parser.go:294-297
  this holds only when GOROOT is the empty string.
- **Frames elided, older copy.** The same holds in panicparse/parser.go: the
  marker matches its frame expression too (package
  `...additional frames elided.`, function `.`), so the elision test at
  panicparse/parser.go:316-318 never fires for the marker alone
  (`LegacyParser.ElisionMarkerTakenAsFrame`). It fires only for a line that
  starts with the marker and fails the expression.
- **Frame arguments.** A frame's `Arguments` is the function-name capture
  (group 5) split on `", "`, not the argument-list capture (parser.go:179,
  panicparse/parser.go:330). The model does the same (`Trace.NewFrame`).

## Model

| member | source | states |
|---|---|---|
| `Grammar.MatchPanic` | parser.go:17 | matches exactly the lines starting with `panic: `; the capture is the rest of the line |
| `Grammar.MatchSignal` | parser.go:18 | a match has a non-empty signal name with no `:`, and the line is `[signal`, a space, the name, `:`, a space, the extras and `]` |
| `Grammar.MatchSignalComplete` | parser.go:18 | conversely, every line of that shape matches, with that name and those extras |
| `Grammar.MatchGoroutine` | parser.go:19 | a match has a non-empty all-digit id and a non-empty state with no comma |
| `Grammar.MatchState` | parser.go:19 | the id is the `d` characters after `goroutine `; the state is comma-free and non-empty |
| `Grammar.StateSearchMax` | parser.go:19 | `[^,]+` backs off one character at a time: the state found leaves a remainder the rest of the expression accepts, and no longer one does |
| `Grammar.HeaderSearch` | parser.go:19 | the state found is the longest run of non-commas whose remainder is a header tail: an optional `, N minutes`, an optional `, locked to thread`, then `]:` |
| `Grammar.LongestSearch` | parser.go:19 | conversely, the longest such state is the one found |
| `Grammar.MatchGoroutineText` | parser.go:19 | a matched header starts `goroutine <id> [<state>` |
| `Grammar.MatchGoroutineLongest` | parser.go:19 | the id of a match is the whole digit run after `goroutine `, and its state is the longest run of non-commas after ` [` that leaves a header tail |
| `Grammar.MatchGoroutineComplete` | parser.go:19 | conversely, `goroutine `, a digit run, ` [`, a non-empty comma-free state and a header tail match with that id and that state |
| `Grammar.RunningHeader` | parser.go:19 | `goroutine 1 [running]:` gives id 1 and state `running` |
| `Grammar.LockedHeader` | parser.go:19 | `goroutine 7 [select, 5 minutes, locked to thread]:` gives id 7 and state `select` |
| `Grammar.LastColonDigit` | parser.go:21 | finds the last `:` followed by a digit in the range, or reports there is none |
| `Grammar.MatchFile` | parser.go:21 | a match has a non-empty file and a non-empty all-digit line number |
| `Grammar.MatchFileParts` | parser.go:21 | there is no match exactly when no `:` followed by a digit comes after the first character. A match splits the line into leading blanks, the file, `:`, the digits, blanks and the rest. `\s*` gives back one character when `(.+)` needs it, so a file is a lone blank or starts with a non-blank. The digits and the blanks are as long as they can be, and the chosen `:` is the last one followed by a digit |
| `Grammar.MatchFileComplete` | parser.go:21 | conversely, a line split that way matches with that file, line number and rest |
| `Grammar.BlankFileExample` | parser.go:21 | `"  :5"` matches with file `" "` and line `5`: the leading `\s*` gives back one blank |
| `Grammar.TabFileExample` | parser.go:21 | `" \t:12 +0x1"` matches with file `"\t"`, line `12` and rest `+0x1` |
| `Grammar.MatchRootFrame` | parser.go:20 | a match keeps the whole line as raw text and has a non-empty function name, so an empty line never matches; every non-empty line without `(` matches |
| `Grammar.RootFrameBody` | parser.go:20 | a match's function name is non-empty and holds no `(`; input without `(` always matches |
| `Grammar.MatchLegacyFrame` | panicparse/parser.go:22 | a match keeps the whole line as raw text, with a non-empty package and function name |
| `Grammar.MatchLegacyFrameComplete` | panicparse/parser.go:22 | conversely, a line that is a package without `(`, a `.`, a function without `.` or `(`, then nothing or a parenthesised list, matches with that package and function and no receiver |
| `Grammar.LegacyElisionMatch` | panicparse/parser.go:22-24 | the elision marker matches too: its package is all but the last `.`, and its function is that `.` |
| `GoStrings.Index` | parser.go:108 | the first occurrence of the separator, or -1 exactly when there is none |
| `GoStrings.Split` | parser.go:108-112 | the first piece is the text before the first separator; there is a second piece exactly when the separator occurs, and it is the text up to the next separator |
| `GoStrings.JoinSplit` | parser.go:179 | joining the pieces of a split with the same separator gives back the input |
| `GoStrings.SplitPiecesFree` | parser.go:108-110 | no piece of a split contains the separator |
| `GoStrings.Remove` | panicparse/parser.go:52 | the result has no `-`, every other character keeps its count, and the length drops by the number of `-` |
| `GoStrings.RemoveConcat` | panicparse/parser.go:52 | removal distributes over concatenation, so the kept characters stay in their order |
| `GoStrconv.Atoi` | parser.go:197-201 | a parsed value is in the 64-bit range, comes from a non-empty text, and is non-negative without a `-` sign |
| `GoStrconv.AtoiDigits` | parser.go:197-201 | a digit run parses to its decimal value, or fails exactly when that overflows 64 bits |
| `GoStrconv.ParseInt0` | parser.go:203-207 | a parsed value fits a signed integer of the given width; the empty text fails |
| `GoStrconv.ParseInt0Literal` | parser.go:203-207 | conversely, every literal without underscores or upper-case prefix letters parses to its value (negated after `-`) exactly when it fits the width. The literal is an optional sign, then decimal digits not starting with 0, `0` and octal digits, or `0b`, `0o` or `0x` and digits of that base |
| `GoStrconv.OctalExample` | parser.go:203-207 | a leading 0 means octal: `017` is 15, and `0` alone is 0 |
| `GoStrconv.HexOffsetExample` | panicparse/parser.go:354-358 | the stack offset `+0x720` parses to 1824 |
| `GoStrconv.SignalCodeOutOfRange` | panicparse/parser.go:118-121 | `0xffffffff` is out of range for a signed 32-bit integer |
| `Trace.TakeToken` | parser.go:122-134 | one extras token is handled as the loop body does: `code`, `addr` and `pc` set their field to the text between the first and second `=`, other `=` tokens are dropped, and the rest are kept |
| `Trace.ScanSignalExtras` | parser.go:119-135 | the loop over the space-separated extras folds every token in order |
| `Trace.FoldExtrasMeaning` | parser.go:119-139 | after the tokens, each of code, address and pc holds the value of the last token with its key (unchanged if there is none), and the kept tokens are exactly those without `=`, in order |
| `Trace.ApplySignal` | parser.go:108-139 | the type becomes the text before the first `": "`; the description becomes the piece after it, or stays when there is no `": "`; the failure becomes synthetic with the signal's name; code, address and pc follow the last matching token; and the signal information is the `=`-free tokens joined by single spaces |
| `Trace.NewFrame` | parser.go:173-180 | the frame keeps the match's raw text, package, receiver, pointer flag and function; it has no file, line or offset yet; its arguments are the function name split on `", "`, and so join back to it |
| `Trace.LineNumber` | parser.go:197-201 | the line number is in the 64-bit range, 0 when the digits do not parse, and never negative for digits |
| `Trace.StackOffset` | parser.go:203-207 | the offset is in the 64-bit range, and 0 when there is no text after the line number or it does not parse |
| `Trace.AppendFrame` | parser.go:181 | the last goroutine gets the frame at its end; the other goroutines are unchanged |
| `Trace.MarkElided` | parser.go:166 | the last goroutine is marked as elided; nothing else changes |
| `Trace.LocateLast` | parser.go:209-211 | the last frame of the last goroutine gets the file, line and offset; everything else is unchanged |
| `Trace.LastUpdateExtends` | parser.go:84-85 | rewriting the last goroutine through the `goroutine` pointer keeps the earlier goroutines and every id |
| `RootParser.InitStep` | parser.go:92-99 | the Init transition keeps the machine invariant |
| `RootParser.PanicStep` | parser.go:101-139 | the InPanic transition keeps the invariant; a synthetic failure's type holds no `": "` |
| `RootParser.HeaderStep` | parser.go:141-160 | the InSignal transition keeps the invariant: the thread id is the first goroutine's id |
| `RootParser.OpenGoroutineKeepsInv` | parser.go:150-158 | appending a new goroutine keeps the invariant, and the thread id is set only when it is still empty |
| `RootParser.FuncStep` | parser.go:162-183 | the StackFunc transition keeps the invariant: in StackFile the last goroutine has a frame |
| `RootParser.FileStep` | parser.go:185-213 | the StackFile transition keeps the invariant, so the `frame == nil` branch is never taken |
| `RootParser.Step` | parser.go:90-214 | one line keeps the invariant, whatever the state |
| `RootParser.Run` | parser.go:76-215 | after any lines the invariant holds: goroutines exist only after the header, ids are non-empty, the thread id is the first goroutine's id, and every frame is well formed |
| `RootParser.InitTransition` | parser.go:92-99 | a `panic: ` header records its text as the type and moves to InPanic; any other line leaves the start state |
| `RootParser.PanicTransition` | parser.go:101-139 | a signal line refines the failure and stays in InPanic; any other line moves to InSignal and is consumed, even a goroutine header |
| `RootParser.HeaderTransition` | parser.go:141-160 | a header appends exactly one frameless goroutine with its id and state and moves to StackFunc; the thread id is set only by the first goroutine |
| `RootParser.FuncTransition` | parser.go:162-183 | a frame appends one frame to the last goroutine and moves to StackFile. A line the frame expression rejects is marked elided when it starts with the elision marker, and is otherwise re-dispatched as in InSignal on the same line. The marker alone never gets there (`RootParser.ElisionMarkerTakenAsFrame`) |
| `RootParser.FileTransition` | parser.go:185-213 | a file line locates the last frame (unparsable numbers become 0) and moves to StackFunc; any other line moves to InSignal and is dropped |
| `RootParser.NoPanicLineKeepsStart` | parser.go:92-99 | with no `panic: ` line the machine never leaves its start state |
| `RootParser.NoPanicLineEvent` | parser.go:78-80 | such a dump still gives an exception of type "crash" with empty value and thread id, the "panic" mechanism and no threads |
| `RootParser.StepKeepsEarlierGoroutines` | parser.go:141-213 | a line adds at most one goroutine, changes no id, and of the existing goroutines changes only the last |
| `RootParser.RunKeepsEarlierGoroutines` | parser.go:87-215 | later lines keep every goroutine's id and leave every goroutine but the last unchanged |
| `RootParser.ThreadIdFixed` | parser.go:150-152 | once a goroutine has been read, the thread id is the first goroutine's id and never changes |
| `RootParser.ElisionMarkerTakenAsFrame` | parser.go:162-171 | in StackFunc the elision marker matches the frame expression, so it adds a frame, moves to StackFile and leaves the elided mark as it was |
| `RootParser.Parse` | parser.go:73-222 | the event is the normalised result of running the machine over every line: the description as message, level fatal, the one exception, and one thread per goroutine |
| `RootParser.ParseLine` | parser.go:90-214 | the switch on the state performs exactly one `Step` |
| `RootParser.InitCase` | parser.go:92-99 | the Init case computes the Init transition |
| `RootParser.PanicCase` | parser.go:101-139 | the InPanic case computes the InPanic transition |
| `RootParser.HeaderCase` | parser.go:141-160 | the InSignal case computes the InSignal transition |
| `RootParser.FuncCase` | parser.go:162-183 | the StackFunc case, including its jump back to the InSignal case, computes the StackFunc transition |
| `RootParser.FileCase` | parser.go:185-213 | a file line locates the last frame and moves to StackFunc; any other line moves to InSignal with nothing changed |
| `RootNormalise.PanicToSentryException` | parser.go:238-268 | type, value and thread id are copied. Without a signal the mechanism is "panic" with no data and no handled flag. With a signal it is "signal", with description = signal info and handled = false; the data always has signal and code, and has relevant_address and program_counter exactly when they are non-empty |
| `RootNormalise.MechanismFollowsSynthetic` | parser.go:244-251 | for a failure the parser built, the mechanism is "signal" exactly when the failure is synthetic |
| `RootNormalise.NormalisedFramesReversed` | parser.go:286-306 | a thread's frames are the normalised frames of the goroutine in reverse order |
| `RootNormalise.NormalisedFramesPush` | parser.go:299 | the frame read last comes out first |
| `RootNormalise.GorootFramesNotInApp` | parser.go:294-297 | a frame whose file lies under GOROOT is not in-app |
| `RootNormalise.GoroutinesToSentryThreads` | parser.go:270-315 | one thread per goroutine, in the same order and with the same id, whose frames are the goroutine's frames normalised and reversed |
| `RootNormalise.EventToSentryEvent` | parser.go:224-236 | the message is the description, the level is fatal, the exception list holds the one converted failure, and there is one normalised thread per goroutine |
| `LegacyParser.GoroutineId` | panicparse/parser.go:294-298 | the id is in the 64-bit range, 0 on a parse failure, and never negative for digits |
| `LegacyParser.GoroutineIdDigits` | panicparse/parser.go:294-298 | a digit run gives its decimal value, or 0 when that overflows |
| `LegacyParser.FirstNonZeroId` | panicparse/parser.go:300-303 | the result is 0 or the id of one of the goroutines |
| `LegacyParser.FirstNonZeroIdPush` | panicparse/parser.go:300-303 | a new goroutine changes the first non-zero id only while it is 0 |
| `LegacyParser.FirstNonZeroIdSameIds` | panicparse/parser.go:313-362 | rewriting frames in place leaves the first non-zero id as it is |
| `LegacyParser.OpenGoroutineKeepsInv` | panicparse/parser.go:300-309 | appending a goroutine keeps the invariant: the thread id is still the first non-zero id |
| `LegacyParser.InitStep` | panicparse/parser.go:239-246 | the Init transition keeps the invariant |
| `LegacyParser.PanicStep` | panicparse/parser.go:248-286 | the InPanic transition keeps the invariant |
| `LegacyParser.HeaderStep` | panicparse/parser.go:288-311 | the InSignal transition keeps the invariant: the thread id is the first non-zero goroutine id |
| `LegacyParser.FuncStep` | panicparse/parser.go:313-334 | the StackFunc transition keeps the invariant |
| `LegacyParser.FileStep` | panicparse/parser.go:336-366 | the StackFile transition keeps the invariant, so the `frame == nil` branch is never taken |
| `LegacyParser.Step` | panicparse/parser.go:236-366 | one line keeps the invariant, whatever the state |
| `LegacyParser.Run` | panicparse/parser.go:224-367 | after any lines the invariant holds: ids are non-negative, the thread id is the first non-zero id (0 until one appears), and every frame has a package and a function |
| `LegacyParser.InitTransition` | panicparse/parser.go:239-246 | a `panic: ` header records its text as the type and moves to InPanic; any other line leaves the start state |
| `LegacyParser.PanicTransition` | panicparse/parser.go:248-286 | a signal line refines the failure and stays; any other line moves to InSignal and is consumed |
| `LegacyParser.HeaderTransition` | panicparse/parser.go:288-311 | a header appends exactly one frameless goroutine with the parsed id; the thread id takes that id only while it is 0 |
| `LegacyParser.FuncTransition` | panicparse/parser.go:313-334 | a frame appends one frame and moves to StackFile. A line the frame expression rejects is marked elided when it starts with the elision marker, and is otherwise re-dispatched as in InSignal. The marker alone never gets there (see the next row) |
| `LegacyParser.ElisionMarkerTakenAsFrame` | panicparse/parser.go:313-334 | in StackFunc the elision marker matches the frame expression, so it appends a frame with package `...additional frames elided.` and function `.`, moves to StackFile and leaves the elided mark as it was |
| `LegacyParser.FileTransition` | panicparse/parser.go:336-366 | a file line locates the last frame and moves to StackFunc; any other line moves to InSignal and is dropped |
| `LegacyParser.NoPanicLineKeepsStart` | panicparse/parser.go:239-246 | with no `panic: ` line the machine never leaves its start state |
| `LegacyParser.OutermostKeepsGoroutine` | panicparse/parser.go:368-371 | reversing keeps the id, state, elided mark and multiset of frames, and puts the frame read last first |
| `LegacyParser.ReverseFrames` | panicparse/parser.go:368-371 | every goroutine, in the same order, has its frames reversed |
| `LegacyParser.Parse` | panicparse/parser.go:220-381 | the event holds the given id, the failure of the machine run over every line, each goroutine with its frames reversed, and level "fatal"; server name, release and environment are empty, and tags and extra are empty maps |
| `LegacyParser.ParseLine` | panicparse/parser.go:236-366 | the switch on the state performs exactly one `Step` |
| `LegacyParser.InitCase` | panicparse/parser.go:239-246 | the Init case computes the Init transition |
| `LegacyParser.PanicCase` | panicparse/parser.go:248-286 | the InPanic case computes the InPanic transition |
| `LegacyParser.HeaderCase` | panicparse/parser.go:288-311 | the InSignal case, with its `Atoi` defaulting to 0, computes the InSignal transition |
| `LegacyParser.FuncCase` | panicparse/parser.go:313-334 | the StackFunc case, including its jump back to the InSignal case, computes the StackFunc transition |
| `LegacyParser.FileCase` | panicparse/parser.go:336-366 | a file line locates the last frame and moves to StackFunc; any other line moves to InSignal with nothing changed |
| `LegacyJson.FrameJson` | panicparse/parser.go:191-218 | exactly the six keys; the function is `Receiver.Func` or `Func`; in_app is false exactly for a GOROOT file or a vendored or third-party package, with no module-cache test |
| `LegacyJson.GoroutineJson` | panicparse/parser.go:161-177 | the keys id, state and stacktrace; stacktrace.frames is null exactly when there are no frames, and otherwise lists each frame's encoding in order |
| `LegacyJson.SignalCode` | panicparse/parser.go:118-121 | the code is `ParseInt(code, 0, 32)`'s value when it parses, and 0 when it fails; either way it is in the signed 32-bit range |
| `LegacyJson.MechanismJson` | panicparse/parser.go:111-136 | "panic" with nothing else when there is no signal. Otherwise "signal", with meta.signal.name = the signal, meta.signal.code present exactly when the parsed code is non-zero, description present exactly when the signal info is non-empty, and data present exactly when an address or pc is, each key only when non-empty |
| `LegacyJson.PanicJson` | panicparse/parser.go:91-152 | type, value and mechanism are always present; synthetic is present (and true) exactly when the failure is synthetic; thread_id is present exactly when it is non-zero |
| `LegacyJson.EventId` | panicparse/parser.go:51-52 | the event id has no `-` and otherwise the characters of the UUID text |
| `LegacyJson.EventIdInOrder` | panicparse/parser.go:51-52 | the id of a concatenation is the concatenation of the ids, and one character is dropped exactly when it is `-`, so the kept characters keep their order |
| `LegacyJson.ThreadsJson` | panicparse/parser.go:57 | one goroutine encoding per goroutine, in order |
| `LegacyJson.EventObject` | panicparse/parser.go:54-76 | event_id, exception (a one-element list holding the failure), threads, platform "go" and level are always present, and no key outside the ten declared ones appears |
| `LegacyJson.EventOptionalFields` | panicparse/parser.go:59-63 | server_name, release, tags, environment and extra are each present exactly when non-empty, and then hold their value |
| `LegacyJson.SignalCodeFfffffffOmitted` | panicparse/parser.go:118-131 | the usual SIGSEGV code `0xffffffff` does not fit, so the encoded signal carries no code |
| `LegacyJson.PlainPanicJson` | panicparse/parser.go:105-152 | a failure with no signal line encodes only type, value, mechanism and a non-zero thread_id, with the bare "panic" mechanism |
| `LegacyJson.ParsedEventKeys` | panicparse/parser.go:373-380 | the event `Parse` builds encodes exactly the five fixed keys |

## Left out

- Reading the input: `bufio.Scanner`'s line splitting and its 64 KB line
  limit. The input is the sequence of lines it would yield.
- The regular-expression engine. Each expression is a hand-written matcher
  for the leftmost-first match; the other capture groups the parser never
  reads are not computed.
- Logging (`zerolog`) around the failed `Atoi`/`ParseInt` calls and the
  `frame == nil` branch. The branch itself is proved unreachable, so it is
  not modelled.
- `uuid.New()`: the event id is a parameter, in its textual form.
- `build.Default.GOROOT`: a parameter.
- `sentry.NewEvent()`'s own defaults, such as timestamp and event id, and the
  SDK's other event fields. The model's event records only the fields the
  normaliser sets.
- The commented-out `FramesOmitted` code in parser.go (lines 280-284). The
  elided mark is read but never written into a thread.
- Pointer identity. The `goroutine` and `frame` pointers are the last
  goroutine and its last frame (proved in `Inv`), and the records are
  values. Sharing a `*Panic` or `*Frame` between places is not modelled.
- JSON bytes. The `MarshalJSON` methods are modelled as the JSON tree they
  encode (objects as maps). Key order, string escaping and number formatting
  are left out, and `Extra` holds JSON values rather than arbitrary Go
  values.
- A hand-made legacy `Event` with a nil `Threads` slice (encoded as null).
  `Parse` never builds one, so `ThreadsJson` always encodes a list.
- `LegacyJson.EventJson` has no contract of its own. It only passes the
  nested encodings to `EventObject`, and `EventObject` and
  `EventOptionalFields` state its facts.
- ParseInt0Literal: the converse leaves out literals with underscores and the upper-case prefixes `0B`, `0O` and `0X`. `ParseInt0` itself models both, and Go's dumps print codes and offsets as lower-case `0x…`.
- panicparse/sentry.go (the HTTP client), cmd/main.go, main.go and their
  tests are not part of this model. They are process plumbing and network
  I/O.
