# ayd-web-scenario core, modelled in Dafny

This project models five sequential pieces of ayd-web-scenario, a runner for
browser scenarios written in Lua. Each piece has its own module.

- `Convert` (convert.dfy) covers the marshaller between Lua values and Go values.
  - `Unpack` turns a Lua value into a Go value. A table becomes a sequence
    exactly when its keys are 1..N and nothing else. Any other table becomes a
    mapping whose keys are the renderings of its keys.
  - `Pack` turns a Go value into a Lua value. Slices become 1..N tables. Keyed
    containers always become tables with string keys.
  - `Pack` and `Unpack` are specified by the expectation tables
    `TestUnpackValue` and `TestPackValue` in `convert_test.go` (lines 15-31 and
    47-66). `ConvertRows` (convert_rows.dfy) proves each row of those tables in
    general form, with the row's own values replaced by parameters.
- `Environment` (environment.dfy) covers these parts of the scenario environment:
  - how `HandleError` turns a Go error into a raised Lua message;
  - the value-or-raise outcome of `AsyncRun`;
  - the ordered registry of open tabs, as a class whose `UnregisterTab`
    rebuilds the list in a loop;
  - `CallEventHandler`'s collection of exactly `nret` stack results.
- `Storage` (storage.dfy) covers artifact and download bookkeeping. A
  `Storage` class holds the append-only artifact list and the pending-download
  map. Each of its methods is tied to a step function `Apply` over a
  `StorageState`, and the lemmas about whole runs use `Run`. The pure rules
  for naming a saved file and deriving the storage directory are modelled too,
  including the parts of `filepath` they need.
- `Repl` (repl.dfy) covers two parts of the REPL:
  - `SourceRecordReader`, a class that splits incoming chunks into lines and
    keeps a partial last line. `ReadStep` specifies one `Read`. Whole streams
    are reconstructed by `Feed` and `FeedReconstructs`.
  - The `DoREPL` loop. It is a method proved against `ReplRun`, a function of
    the readline events. It has two parameters that stand for the interpreter:
    `load` (compiling) and `eval` (running a chunk, given the chunks run before
    it).
- `Time` (time.dfy) covers the unit constants of the `time` table and the
  layout `time.format` chooses.

`Wrappers` (wrappers.dfy) holds the `Option` type used throughout, and `Seqs`
(seqs.dfy) two facts about sequences that the proofs share.

Effects become parameters:
- the error of the file write in `Save` (the bytes written are not modelled);
- the chunks and errors an upstream reader returns;
- the events readline returns;
- the results of compiling and running a chunk;
- the run's timestamp, already formatted.

What the REPL and the reader hand to `RecordStdin`, print or log becomes a list
of `Action`s, or the `recorded` out-parameter.

## Model

| member | source | states |
|---|---|---|
| Convert.IntToString | convert_test.go:25-28 | an integer key renders as digits, with a leading '-' exactly when negative, and never holds a '.' |
| Convert.NatToStringValue | convert_test.go:25-28 | the digits of a natural number read back, in base 10, as that number, with no leading zero |
| Convert.IntToStringNonNegative | convert_test.go:25-28 | a non-negative key renders as its decimal expansion, with no leading zero |
| Convert.IntToStringNegative | convert_test.go:25-28 | a negative key renders as '-' followed by the decimal expansion of its magnitude, with no leading zero |
| Convert.Render | convert_test.go:25-28 | an integer key renders without a '.', a string key as itself, a fractional key as its rendering |
| Convert.IntToStringInjective | convert_test.go:25-28 | distinct integer keys never share a rendering |
| Convert.Classify | convert_test.go:24-28 | a key set is classified as a sequence only when its length N and all of 1..N are keys |
| Convert.ClassifyCorrect | convert_test.go:24-28 | the classification is a sequence exactly when the keys are 1..N and nothing else |
| Convert.MappingOf | convert_test.go:25-28 | the mapping's keys are exactly the renderings of the table's keys, and each rendering holds the value of the key that supplies it |
| Convert.Supplier | convert_test.go:25-28 | every rendered key has a key of the table that supplies it and renders to it |
| Convert.SupplierOf | convert_test.go:25-28 | the key a rendering is traced back to is the one that supplies it |
| Convert.Unpack | convert_test.go:19-30 | only a table unpacks to a container; a sequence has the length of its key set and comes from sequence keys; any other table is a mapping |
| Convert.UnpackSequence | convert_test.go:24-26 | a table keyed 1..n unpacks to a sequence of length n whose j-th element is the unpacked value at key j+1 |
| Convert.UnpackMapping | convert_test.go:25-28 | a table without sequence keys unpacks to a mapping keyed by the renderings, each holding the unpacked value of its key |
| Convert.UnpackKeyOneWithStringKey | convert_test.go:25 | key 1 with any string key gives a mapping in which the integer key appears as "1" |
| Convert.UnpackWithoutKeyOne | convert_test.go:28 | a non-empty table without key 1 is never a sequence |
| Convert.NoKeyOneNotSequence | convert_test.go:28 | a non-empty key set without key 1 is not 1..N |
| Convert.UnpackOneKey | convert_test.go:27-28 | a table whose only key is not 1 unpacks to a one-entry mapping under that key's rendering |
| Convert.UnpackFractionalKey | convert_test.go:27 | a non-integer numeric key gives a mapping keyed by its rendering |
| Convert.Pack | convert_test.go:51-65 | Pack gives nil exactly for nil, a nil slice and a nil map; a slice gives keys among 1..N, with key j present exactly when element j does not pack to nil; a keyed container gives only string keys |
| Convert.PackIsLuaValue | convert_test.go:51-65 | a packed value never stores nil in a table, at any depth |
| Convert.PackStringKeysDomain | convert_test.go:60-62 | a packed string- or float-keyed map has a string key exactly for each entry whose value does not pack to nil |
| Convert.PackIntKeysDomain | convert_test.go:63 | a packed integer-keyed map has a string key exactly for the rendering of each integer whose value does not pack to nil |
| Convert.UnpackStringTable | convert_test.go:60-65 | a non-empty table of string keys unpacks to the mapping of its unpacked values, key for key |
| Convert.Canon | convert_test.go:51-65 | the reference conversion for values without nil inside containers gives nil exactly for the nil kinds, a sequence of the same length for a slice, and for a keyed map either the empty sequence or a mapping with the map's keys, or their renderings for integer keys |
| Convert.RoundTrip | convert_test.go:51-72 | Unpack(Pack(h)) equals the reference conversion Canon(h) for every Go value whose containers hold no nil-kind element at any depth: integers as numbers, nil kinds as nil, slices in order, keyed maps as mappings |
| Convert.RoundTripSlice | convert_test.go:59-65 | the round trip of a slice without nil inside is the slice of round trips, in order |
| Convert.RoundTripStringKeys | convert_test.go:60-62 | the round trip of a string- or float-keyed map without nil inside is the map of round trips |
| Convert.RoundTripStringAt | convert_test.go:60-62 | in a string-keyed map without nil inside, each key survives the round trip with its converted value |
| Convert.RoundTripIntKeys | convert_test.go:63 | the round trip of an integer-keyed map without nil inside is the map of round trips under the renderings |
| Convert.RoundTripIntAt | convert_test.go:63 | in an integer-keyed map without nil inside, each key survives as its rendering with its converted value |
| Convert.UnpackPackedStringKeys | convert_test.go:60-62 | a packed string-keyed map is a mapping keyed by the entries whose values do not pack to nil, even for the key "1", each holding its value packed and unpacked, and the empty sequence when there are none |
| Convert.PackLiveStrTable | convert_test.go:60-62 | a string- or float-keyed map packs to a table of string keys, one for each entry whose value does not pack to nil, holding that value packed |
| Convert.UnpackLiveStrTable | convert_test.go:60-62 | such a table unpacks to the mapping of those keys to their values packed and unpacked |
| Convert.PackOneStrKey | convert_test.go:60-62 | a keyed map with one live entry packs to the one-entry table under that string key |
| Convert.UnpackPackedOneKey | convert_test.go:60-62 | a string- or float-keyed map with one live entry, even under "1", gives the one-entry mapping |
| Convert.PackOneIntKey | convert_test.go:63 | an integer-keyed map with one live entry packs to the one-entry table under the key's rendering |
| Convert.UnpackPackedOneIntKey | convert_test.go:63 | an integer-keyed map with one live entry, even under 1, gives the one-entry mapping under the key's rendering |
| Convert.UnpackPackedEmpty | convert_test.go:60-63 | a keyed map no value of which survives packing unpacks to the empty sequence |
| Convert.UnpackPackedIntKeys | convert_test.go:63 | a packed integer-keyed map is a mapping keyed by the renderings of the keys whose values do not pack to nil, even when those keys are 1..N, each rendering holding its value packed and unpacked, and the empty sequence when there are none |
| Convert.PackedSliceIsSequence | convert_test.go:59-65 | a packed slice without nil-kind elements unpacks to a sequence of its length whose elements are its elements, packed and unpacked |
| Convert.PackSliceKeys | convert_test.go:59 | a slice without nil-kind elements packs to a table keyed exactly 1..N |
| Convert.GapNotSequence | convert_test.go:28 | keys missing an integer below a present one are not 1..N |
| Convert.IntKeyedMapping | convert_test.go:28 | an integer-keyed table that is not a sequence is a mapping holding the rendering of an integer exactly when it is a key |
| Convert.UnpackPackedSliceWithGap | convert_test.go:59 | a slice with a nil-kind element before a live one unpacks to a mapping holding the rendering of position i exactly when element i does not pack to nil |
| ConvertRows.UnpackScalarRows | convert_test.go:19-23 | nil, booleans, numbers and strings unpack to themselves |
| ConvertRows.UnpackListRow | convert_test.go:24 | a two-element list of values a table can hold unpacks to the two-element sequence in order |
| ConvertRows.UnpackSingleMapping | convert_test.go:27-28 | a single entry whose key is not 1 unpacks to a one-entry mapping under its rendering |
| ConvertRows.UnpackPairMapping | convert_test.go:25-30 | two keys with distinct renderings that are not 1..2 unpack to the two-entry mapping |
| ConvertRows.UnpackKeyOneAndStringRow | convert_test.go:25 | a string key with key 1 unpacks to a mapping holding the string key and "1" |
| ConvertRows.UnpackKeyOneRow | convert_test.go:26 | a table with only key 1 unpacks to a one-element sequence |
| ConvertRows.UnpackFractionalRow | convert_test.go:27 | a table with only a fractional key unpacks to a mapping under its rendering |
| ConvertRows.UnpackKeyTwoRow | convert_test.go:28 | a table with only key 2 unpacks to the mapping {"2": value} |
| ConvertRows.UnpackTripleRow | convert_test.go:29 | a three-element list unpacks to the three-element sequence in order |
| ConvertRows.UnpackNestedListRow | convert_test.go:29 | a list nested under a string key is unpacked in place |
| ConvertRows.UnpackNestedMapRow | convert_test.go:30 | a mapping nested as the first element of a list is unpacked in place |
| ConvertRows.PackScalarRows | convert_test.go:51-58 | the nil kinds round-trip to nil, booleans and strings exactly, integers as numbers |
| ConvertRows.PackListRow | convert_test.go:59 | a two-element slice of values that do not pack to nil round-trips to the two-element sequence |
| ConvertRows.PackPair | convert_test.go:59 | a two-element slice of values that do not pack to nil packs to the table {1: x1, 2: x2} |
| ConvertRows.PackLeadingNil | convert_test.go:59 | a two-element slice whose first element is nil packs to the table {2: x}, without key 1 |
| ConvertRows.PackLeadingNilRow | convert_test.go:59 | a two-element slice whose first element is nil round-trips to the mapping {"2": x}, not to a sequence |
| ConvertRows.PackSingleStringKeyRow | convert_test.go:60-62 | a one-entry string- or float-keyed map whose value does not pack to nil round-trips to a one-entry mapping |
| ConvertRows.PackIntMapRow | convert_test.go:63 | the integer-keyed map {1: x}, x not packing to nil, round-trips to the mapping {"1": x}, not to a sequence |
| ConvertRows.PackNestedListRow | convert_test.go:64 | a slice of values that do not pack to nil, under a string key, round-trips in place |
| ConvertRows.PackNestedMapRow | convert_test.go:65 | a slice of one-entry maps whose values do not pack to nil round-trips to a sequence of mappings |
| Environment.HandleError | internal/environment.go:74-84 | nothing is raised exactly when there is no error; a deadline raises "timeout", testing it before a cancellation; a cancellation raises "interrupted"; any other error raises its message |
| Environment.HandleErrorClassifies | internal/environment.go:74-84 | every error raises one of "timeout", "interrupted" or its own message |
| Environment.TimeoutWinsOverCancel | internal/environment.go:76-79 | an error that is both a deadline and a cancellation raises "timeout" |
| Environment.AsyncRunOutcome | internal/environment.go:117-123 | f's value is returned exactly when its error is nil, otherwise the outcome is HandleError's message |
| Environment.Without | internal/environment.go:206-214 | the new list is no longer, never holds the removed tab, and holds only tabs of the old one |
| Environment.WithoutMembership | internal/environment.go:206-214 | a tab is kept exactly when it was there and is not the removed one |
| Environment.WithoutConcat | internal/environment.go:206-214 | removal works element by element, so the kept tabs stay in their order |
| Environment.WithoutAbsent | internal/environment.go:206-214 | removing an absent tab leaves the list equal |
| Environment.WithoutCount | internal/environment.go:206-214 | exactly the occurrences of the removed tab go, every other tab keeps its count |
| Environment.WithoutIdempotent | internal/environment.go:206-214 | unregistering twice is unregistering once |
| Environment.Environment.constructor | internal/environment.go:37-44 | a new environment has no tabs |
| Environment.Environment.RegisterTab | internal/environment.go:202-204 | the tab goes at the end and the existing entries are unchanged |
| Environment.Environment.UnregisterTab | internal/environment.go:206-214 | the new list is the old one without every occurrence of the tab |
| Environment.RegisterThenUnregister | internal/environment.go:202-214 | registering a new tab and unregistering it restores the list |
| Environment.StackGet | internal/environment.go:138-139 | a stack position within the stack gives its value, any other gives nil |
| Environment.CollectResults | internal/environment.go:137-141 | exactly nret values, none when nret is not positive, taken from positions 1..nret in order; nil past the top; the stack prefix when it is tall enough |
| Storage.SaveName | storage.go:40-42 | the name always ends with ext; it is unchanged when it already does and gets ext appended otherwise |
| Storage.SaveNameIdempotent | storage.go:40-42 | applying the naming rule twice adds nothing |
| Storage.SaveNameExtends | storage.go:40-42 | the saved name extends the given one by at most ext |
| Storage.Join | storage.go:27 | joining only empty elements gives the empty path; a non-empty first element gives a non-empty path |
| Storage.JoinEndsWithLast | storage.go:27 | a non-empty first and last element give a path ending in a separator and the last element |
| Storage.JoinTwo | storage.go:43 | two non-empty elements are joined by one separator |
| Storage.JoinUnder | storage.go:43-46 | a name without a ".." element, joined to the directory, lies under the directory |
| Storage.Base | storage.go:25 | the base name is never empty, holds no separator unless it is the root, and is the last element: a suffix of the path without trailing separators that is all of it or follows a separator |
| Storage.TrimTrailingSlashes | storage.go:25 | only trailing separators are removed, and none is left |
| Storage.DirOf | storage.go:22 | the directory of a path is never empty |
| Storage.DirAndBase | storage.go:22-25 | a clean path with an inner separator is its directory, a separator and its base name |
| Storage.Ext | storage.go:26 | the extension is a suffix of the name that is empty or starts at the last '.', with no other '.' and no separator; it is empty only when the last element holds no '.' |
| Storage.Stem | storage.go:26 | the stem followed by the extension gives back the name |
| Storage.StorageDir | storage.go:20-27 | the storage directory is never empty and, with a timestamp, ends in a separator and the timestamp |
| Storage.Layout | storage.go:25-27 | a non-empty parent gives a non-empty directory that, with a timestamp, ends in a separator and the timestamp |
| Storage.StorageDirLayout | storage.go:21-27 | the directory is basedir, or the script's directory when basedir is empty, then the stem, then the timestamp, joined by separators |
| Storage.Apply | storage.go:39-71 | an operation keeps the artifacts as a prefix and adds at most one; a save leaves the pending downloads alone, a start maps the guid to its name, a cancel or completion forgets the guid |
| Storage.ApplyAppends | storage.go:39-71 | every operation keeps the artifact list as a prefix and adds at most one entry; a save adds exactly one; start and cancel add none |
| Storage.RunAppendOnly | storage.go:39-78 | over any run the old artifact list is a prefix of the new one, which grows by at most one per operation |
| Storage.RunKeepsArtifactsUnder | storage.go:43-68 | every artifact recorded by a run lies under the storage directory, as long as no saved or downloaded name has a ".." element |
| Storage.StartThenComplete | storage.go:52-71 | starting and completing a download appends Dir/name and forgets the guid |
| Storage.CancelThenComplete | storage.go:58-71 | a completion after a cancellation records nothing and leaves the guid absent |
| Storage.CompleteUnknownIsNoop | storage.go:64-71 | completing an unknown guid changes nothing |
| Storage.CompleteTwice | storage.go:64-71 | a second completion of the same guid changes nothing |
| Storage.StartOverwrites | storage.go:52-56 | a second start for a guid replaces the first name |
| Storage.Storage.constructor | storage.go:20-37 | Dir is the derived storage directory; there are no artifacts and no pending downloads |
| Storage.Storage.Save | storage.go:39-50 | Dir/SaveName(name, ext) is appended before the write, so the list grows by one even when the write fails; the write's error is returned |
| Storage.Storage.StartDownload | storage.go:52-56 | the guid maps to the name, overwriting any previous one; artifacts are unchanged |
| Storage.Storage.CancelDownload | storage.go:58-62 | the guid is removed and artifacts are unchanged |
| Storage.Storage.CompleteDownload | storage.go:64-71 | a pending guid appends Dir/name and is removed; an unknown guid changes nothing |
| Storage.Storage.Artifacts | storage.go:73-78 | the result equals the current artifact list |
| Repl.Split | internal/repl.go:108 | a split always has at least one piece |
| Repl.SplitPieces | internal/repl.go:108-109 | no piece of a split holds a newline |
| Repl.IndexOf | internal/repl.go:108 | the position found holds the first newline of the text |
| Repl.SplitAtFirst | internal/repl.go:108 | a split is the text before the first newline followed by the split of the rest |
| Repl.SplitThenJoin | internal/repl.go:108 | joining the pieces of a split with newlines gives back the text |
| Repl.JoinThenSplit | internal/repl.go:76 | splitting newline-free lines joined by newlines gives back the lines |
| Repl.SplitAppend | internal/repl.go:108-109 | appending text only extends the last piece of a split and adds pieces after it |
| Repl.SplitPastFirst | internal/repl.go:108 | text appended after the first newline leaves the first piece alone |
| Repl.ReadStep | internal/repl.go:105-120 | lines are recorded exactly on data without error or on the first end of file; the reader is finished exactly when it was or the end came now; recording nothing changes nothing |
| Repl.ReadDataSplits | internal/repl.go:107-110 | after data without error, the recorded lines followed by the new buffer are the split of the old buffer and the chunk; neither the buffer nor any recorded line holds a newline; finished is unchanged |
| Repl.FirstEndOfFileFlushes | internal/repl.go:111-117 | the first end of file records a non-empty buffer as one line, records [] for an empty one, and sets finished |
| Repl.LaterErrorsRecordNothing | internal/repl.go:106-119 | a later end of file, or any other error, records nothing and leaves the reader alone, even when bytes came with it |
| Repl.ReadStepReconstructs | internal/repl.go:107-110 | if everything read so far splits into the recorded lines and the buffer, that still holds after one more chunk |
| Repl.Feed | internal/repl.go:105-120 | after a stream the reader is finished exactly when some read returned an end of file |
| Repl.FeedReconstructs | internal/repl.go:105-120 | over a whole stream, the lines recorded followed by the pending buffer are the split of all data delivered without error; finished means an end of file was seen |
| Repl.SourceRecordReader.constructor | internal/repl.go:99-103 | a new reader has an empty buffer and has not finished |
| Repl.SourceRecordReader.Read | internal/repl.go:105-120 | the upstream's count and error are returned unchanged, and the fields and the recorded lines follow ReadStep |
| Repl.Accumulate | internal/repl.go:57-61 | the code becomes the line when it was empty, else the code and the line joined by a newline |
| Repl.AccumulateIsJoin | internal/repl.go:57-61 | lines accumulated from a non-empty first line are the lines joined by newlines |
| Repl.AccumulatedLines | internal/repl.go:57-76 | the lines recorded for accumulated input are the lines typed |
| Repl.Report | internal/repl.go:82-92 | the exit hint appears exactly for a bare exit, quit or bye that left a single nil; nothing is printed exactly when nothing was left |
| Repl.Evaluate | internal/repl.go:64-95 | every evaluation continues the loop |
| Repl.RunLine | internal/repl.go:57-95 | the new code, history and actions after a line are those of Evaluate on the accumulated code |
| Repl.DoRepl | internal/repl.go:34-96 | the loop's result and actions are those of ReplRun from empty code over the events |
| Repl.StepShape | internal/repl.go:34-56 | every turn first shows the prompt; a turn stops exactly on an end of file or a readline error, and only the latter is an error result |
| Repl.ReplRunShape | internal/repl.go:34-96 | a session's output starts with the first prompt, and an error result is always one that readline returned |
| Repl.ReplRunStops | internal/repl.go:43-56 | an end of file or a readline error ends the session with that turn's result |
| Repl.ReplRunContinues | internal/repl.go:34-96 | a turn that continues is followed by the session from its new code |
| Repl.InterruptResets | internal/repl.go:47-52 | an interrupt prints the notice, resets the code and continues |
| Repl.LoadErrorResets | internal/repl.go:70-73 | a load error that is not an early end is logged and resets the code |
| Repl.IncompleteAccumulates | internal/repl.go:68-69 | input that ends too early is kept and accumulates, with nothing run, logged or recorded |
| Repl.EvaluationResets | internal/repl.go:76-95 | a chunk that compiles is recorded line by line, run once, and the code is reset |
| Repl.ExitHintExactly | internal/repl.go:82-92 | the exit hint is shown exactly when the code is an exit word and running it left a single nil |
| Repl.MultiLineRecorded | internal/repl.go:57-76 | an incomplete first line followed by a line that completes it is recorded as those two lines, and the code resets |
| Time.Units | internal/time.go:51-59 | the time table has exactly the seven unit fields, each positive |
| Time.UnitRatios | internal/time.go:52-58 | millisecond is 1; second is 1000 milliseconds; minute is 60 seconds; hour is 60 minutes; day is 24 hours; week is 7 days; year is 365 weeks |
| Time.UnitsIncrease | internal/time.go:52-58 | the units grow strictly, and a year as written is 7 x 365 days rather than 365 days |
| Time.FormatLayout | internal/time.go:43 | the layout is the default "%Y-%m-%dT%H:%M:%S%z" when the argument is absent, the string when it is a string, and a type error otherwise |
| Time.OmittedLayoutIsDefault | internal/time.go:43 | leaving the layout out formats as passing the default layout, and every accepted argument acts as its string layout |

## Left out

- The interpreter lock and scheduling are not modelled. This covers `Yield`,
  the unlock and relock in `AsyncRun` and `DoREPL`, `DoFile`'s goroutine and
  its race on `errch`, the channel send in `CallEventHandler`, and the
  `saveRecord` goroutines. It also covers the `sync.Mutex` embedded in
  `Storage` (storage.go:13) and its `Lock`/`Unlock` calls in every method
  (storage.go:45-75). Their point is concurrency.
- gopher-lua is left out: `NewThread`, `PCall`, `Load`, `GetTop` and
  `ToStringMeta`. `Load` and `PCall` become the `load` and `eval`
  parameters. `isIncomplete`'s test of a `parse.Error` at end of input
  becomes the `incomplete` flag of `LoadResult`.
- Environment.HandleError: does not model the source location that
  `RaiseError` prefixes to the message, because it comes from the
  interpreter's call stack.
- Convert.Unpack: when a table has both an integer key and a string key with
  the same rendering, the model keeps the string key's value. The source's
  choice depends on table iteration order. A function or other opaque value
  unpacks to an `Opaque` handle, where the source gives a string starting
  "function: 0x" (convert_test.go:37-40), because that string holds a memory
  address.
- Convert.Render: the rendering of a non-integer numeric key (such as "1.1")
  is given as a string, because it is floating-point formatting.
- Convert.Pack: integer widths and float32 are not distinguished. Every number
  is a real. `map[any]` and other Go kinds are not modelled.
- Convert.RoundTrip: an empty map becomes an empty sequence, by the 1..N rule
  with N = 0. The statement that packed keyed containers unpack to mappings is
  therefore made for containers with a value that survives packing.
- Convert.Canon: is the reference only for values whose containers hold no
  nil-kind element or value (`NilFree`). For the others, `Pack` drops the
  entries, as a Lua table cannot hold nil. What the round trip then gives is
  stated by PackStringKeysDomain, PackIntKeysDomain, UnpackPackedStringKeys,
  UnpackPackedIntKeys, UnpackPackedSliceWithGap and PackLeadingNilRow, not by
  Canon.
- ConvertRows: the unpacking rows take tables that a Lua program can build
  (`IsLuaValue`: no table stores nil), and the packing rows take values that
  do not pack to nil, as the test's own values do.
- The code of PackLValue and UnpackLValue is not part of this model. `Pack`
  and `Unpack` model them as specified by the tables `TestUnpackValue` and
  `TestPackValue` in `convert_test.go`.
- Convert.LKey: cannot represent boolean, table or function keys, so tables
  with such keys are not modelled.
- Convert.Supplies: also settles the collision of a fractional key with a
  string key of the same rendering (the string key wins) and of an integer key
  with a fractional key (the fractional key wins). In the source both depend
  on table iteration order.
- main.go, tab.go and test_test.go are not modelled. They cover CLI flags,
  browser start-up, chromedp calls, screenshots, record formatting and the
  test server. RecordOnAllTabs is left out for the same reason.
- Storage.Storage.constructor: `os.MkdirAll` and its early return are not
  modelled. The `timestamp.Format` layout is also left out: the timestamp
  comes in already formatted.
- Storage.Join: does not model `filepath.Clean`. Non-empty elements are
  joined by "/" as given. Because of this, a saved or downloaded name such as
  "../x.png" would in the source be cleaned to a path outside `Dir`; the model
  keeps "Dir/../x.png", which only looks as if it were under `Dir`. JoinUnder
  and RunKeepsArtifactsUnder are therefore stated only for names without a
  ".." element.
- Storage.DirOf: does not model `filepath.Clean`. For "a//b" Go gives "a"
  while the model gives "a/"; for clean paths the two agree.
- Storage.DirAndBase: is stated for clean paths only (no empty, "." or ".."
  element and no trailing separator), the paths on which DirOf agrees with Go.
- Storage.Storage.Save: the file write is a parameter (its error); the bytes
  written are not modelled.
- Repl.FeedReconstructs: requires that no data arrives after an end of file.
  The source keeps `buf` after the end, so later data would be split onto the
  flushed line; the invariant is stated only for streams without that.
- Repl.SourceRecordReader.Read: bytes are modelled as characters.
  `RecordStdin` becomes the `recorded` out-parameter.
- Repl.DoRepl: readline, the banner and terminal output are not modelled. When
  the events run out, the input reads as end of file. Printed values are kept
  as Lua values, without `ToStringMeta` formatting or tab joining.
- The `time` functions `now`, `sleep` and the call to `os.date` in `format`
  are left out. They involve the clock, timers and the `n / 1000`
  floating-point division.
