# Verified model of the camera suite's core

Dafny 4.11 models of four parts of the repository, and proofs about them:

1. **The JSON library** (`src/json`): the non-allocating parser of `js.c`, the
   generator of `jsgen.c` and the tree of `jstree.cpp`.
2. **The H.264 NAL splitter and its buffer queue** (`src/omx/preview_component.cpp`).
3. **The virtual camera** (`src/virtual/camera_virtual.cpp`): parameter text, frame
   pool, preview queue, and the preview/recording state machine.
4. **Buffer hand-off and framing**: the OMX drain and its buffer pool, the file
   sink's writer thread, and the daemon's message framing.

`dafny verify dfyconfig.toml` checks all of it.

## Layout

Each file is one module.  Code that changes things step by step is a method with
its loop, or a class with the source's fields, proved against a function; what the
source promises is proved about that function as lemmas.  Threads are step systems
(`Op`, `Enabled`, `Apply`, `Run`): a run is any interleaving of steps that can be
taken, and the methods of the class beside each system are proved to be its steps.

| files | part |
|---|---|
| `Common`, `JsonChars`, `Decimal` | shared definitions |
| `JsonScan`, `JsonExtend`, `JsonRead`, `JsonParser` | scanning and reading: functions, then loops |
| `JsonValue`, `JsonGen`, `JsonSerialize` | the tree, its text, and the generator |
| `JsonLayout`, `JsonSkip`, `JsonRoundTrip` | text in any layout; skipping and reading it; parse/print round trips |
| `JsonNumber` | exact decimal reading |
| `JsonPath`, `JsonNodes` | dotted paths over the tree; container nodes and cloning |
| `JsonLookup`, `JsonLookupLoops` | dotted paths over the text |
| `NalScan`, `RtpComponent` | start-code scans; the queue object |
| `CameraParams`, `FramePool`, `PreviewQueue`, `CameraVirtual` | the virtual camera |
| `BufferPool`, `OmxDrain`, `OmxStarvation`, `FileSink`, `QCamDaemon` | buffer hand-off and framing |

A document (`JsonLayout.Doc`) is a tree written out by hand: any spaces behind each
token, an optional comma before a closer, strings and keys with any escapes, and bare
keys.  What the parser does with it is stated for every document at any offset of any
text; the generator's own output is one of them (`JsonLayout.PrintedIsSpelled`).

A `char` is one byte.  Text sizes are C ints, so `Text` is shorter than 2^31.
Numbers are unbounded, with 32-bit bounds and wrap-around written out where the
code depends on them.  Results of foreign calls (the generator's allocator, OMX, the
physical device, sockets) are parameters.

## Where the code falls short

Each entry names the exact condition and then an input, or a run, that shows it.

- Lookup and enumeration skip spaces in front of the text's value, but reading it does
  not, so a text that begins with a space is refused (`JsonRoundTrip.ReadText`).
- An object or array is read up to its first broken member, without an error
  (`JsonRoundTrip.ReadBroken`, `JsonRoundTrip.BrokenElementEnds`; `JsonRoundTrip.BrokenRead`).
- Any word that begins with `n` is null, and true and false may run on behind an
  underscore (`JsonRoundTrip.ReadWord`; `JsonRoundTrip.WordsTaken`).
- What stands behind the part of a number token that is scanned is ignored
  (`JsonNumber.OnlyScannedCounts`; `JsonNumber.JunkIgnored`).
- A bare key is read into the tree but not found in the text (`JsonLookup.BareKeyMissed`).
- A key or path segment that ends in a byte the generator escapes is found in the
  tree but not in the text (`JsonLookup.LookupAgrees`; `JsonLookup.QuoteEndingKeyMissed`).
- A negative exponent is honoured only on an integer mantissa and only over its own
  trailing zeros; `10.0e-1` and `0e-2` are errors although their values are whole
  (`JsonNumber.GetUNegative`; `JsonNumber.WholeValuesRefused`).
- Setting an existing array element cuts off what is behind it
  (`JsonNodes.PutReplacesIffLast`; `JsonNodes.PutCuts`).
- Cloning merges repeated keys (`JsonNodes.CloneIsCopy`; `JsonNodes.RepeatedKeyMerges`).
- A bare three-byte start code is jumped over unless the scan comes to stand at it
  (`NalScan.JumpMeetsByteScan`; `NalScan.BareCodeMissed`).
- Updating parameters from two texts is not always updating from their concatenation;
  that the first ends in `;` is not enough (`CameraParams.ComposesIffClosed`;
  `CameraParams.SemicolonDoesNotCompose`).
- Switching the running stream to a size text that does not parse leaves preview
  reported as on while paused and stopped (`CameraVirtual.CallKeepsConsistent`;
  `CameraVirtual.UnparsedSizeRun`).
- A startRecording that finds no video size has already replaced the saved preview size,
  which then need not be the running one (`CameraVirtual.CallKeepsConsistent`;
  `CameraVirtual.NoVideoSizeReplacesSaved`), and one that finds another preview size
  while previewing leaves the scaler at the old one (`CameraVirtual.CallKeepsScale`).
- A start that fails at the device leaves a worker behind, and every further start
  fails until a stop (`CameraVirtual.LeavesStaleWorker`, `CameraVirtual.StaleUntilStop`;
  `CameraVirtual.FailedStartLeavesStale`).
- Stopping hangs while listeners hold all seven scaled frames and the worker waits
  for one (`PreviewQueue.StopStuckIff`; `PreviewQueue.StopCanHang`).
- A dispatcher that takes the drain's lock while every buffer is in flight waits
  for ever, because the acknowledgement it waits for needs that lock
  (`OmxDrain.StarvesWhen`; `OmxStarvation.OpenedStarves`).
- Closing the file sink loses the buffer the writer has in work, written or not, and
  what is pending is never returned (`FileSink.CloseLosesWork`; `FileSink.LostUnwritten`,
  `FileSink.LostWritten`).
- A tail on which Skip fails, or that has no room to be completed, blocks the
  connection (`QCamDaemon.BlockedIff`; `QCamDaemon.BraceHashBlocks`), and the full
  buffer this leads to is taken for a disconnect (`QCamDaemon.Daemon.HandleInput`;
  `QCamDaemon.FullBufferDropped`).
- A complete message behind a space waits for the next read, while an unclosed
  container is handed on at once (`QCamDaemon.DelayedIffBehindSpace`;
  `QCamDaemon.SecondLineWaits`, `QCamDaemon.UnclosedTaken`).

## Model

| member | source | states |
|---|---|---|
| JsonScan.SkipIsSkipItem | src/json/js.c:125-157 | on arbitrary bytes the flat loop with one nesting counter ends exactly where the recursive grammar of items and groups does |
| JsonScan.FlatClosesGroup | src/json/js.c:125-157 | with n + 1 groups open the loop closes the innermost and goes on with n |
| JsonScan.Skip | src/json/js.c:125-157 | a successful skip moves forward; its result is an error or at most two past the end |
| JsonScan.ObjectNext | src/json/js.c:160-185 | a successful step on arbitrary bytes reports key < value < next, all inside the text, so the enumeration advances; a failed skip is never indexed |
| JsonScan.ArrayNext | src/json/js.c:188-204 | a successful step reports the element at the old state and strictly advances inside the text |
| JsonScan.ObjectNextForm | src/json/js.c:160-185 | on arbitrary bytes ObjectNext succeeds exactly on a key, a colon, a value and a comma or brace, each one item of the recursive grammar, with these ids |
| JsonScan.ArrayNextForm | src/json/js.c:188-204 | ArrayNext succeeds exactly on an item that is no bracket, followed by a comma or bracket |
| JsonScan.EnumInit | src/json/js.c:259-276 | on any bytes the first state lies strictly after the container and inside the text; which one it is, `JsonRoundTrip.EnumInitAt` says |
| JsonExtend.ErrorExtends | src/json/js.c:125-157 | a skip that fails on a text fails on every longer one |
| JsonExtend.OverrunIsString | src/json/js.c:125-157 | only an unclosed string makes a skip end behind the text |
| JsonExtend.SpaceKeepsValue | src/json/js.c:125-157 | a space added behind the text breaks no value that ends in it |
| JsonExtend.SkipShifts | src/json/js.c:125-157 | a skip does not depend on what stands before it |
| JsonParser.SkipString | src/json/js.c:80-88 | the loop finds the end of a string, stepping over escaped bytes |
| JsonParser.SkipWord | src/json/js.c:93-101 | the loop finds the end of a number or keyword |
| JsonParser.SkipValue | src/json/js.c:125-157 | the loop with its counter ends on every input with the specified offset |
| JsonParser.NextPair | src/json/js.c:160-185 | ObjectNext's body, in the source's order of tests, gives the specified step |
| JsonParser.NextValue | src/json/js.c:188-204 | ArrayNext's body gives the specified step |
| JsonParser.GetString | src/json/js.c:486-536 | succeeds exactly when the string decodes (`JsonRoundTrip.StringsAreSpelled` says when, and to what) and, if copying, each escape fits with a byte to spare; reports the decoded length and NUL; writes their prefix that fits |
| JsonParser.ReportedSizeFits | src/json/js.c:486-536 | a buffer of the size the first pass reports never makes the second pass fail |
| JsonParser.ReadString | src/json/jstree.cpp:797-939 | sizing call, allocation and copying call together give exactly the decoded bytes |
| JsonParser.ReadKey | src/json/js.c:468-484 | quoted keys are decoded, tag keys run to the end of the tag |
| JsonParser.GetJSON | src/json/js.c:826-847 | the value's text without trailing spaces |
| JsonParser.ReadValue | src/json/jstree.cpp:797-939 | terminates on every byte string and builds the specified tree or error; `JsonRoundTrip.ReadSpelled`, `ReadWord` and `ReadBroken` say which tree |
| JsonParser.ReadObject | src/json/jstree.cpp:797-939 | the enumeration loop keeps every pair in order, duplicates included, keys cut at a NUL as ObjectAdd does, up to the first step that fails |
| JsonParser.ReadArray | src/json/jstree.cpp:797-939 | the enumeration loop keeps every element in order |
| JsonRead.ReadEscape | src/json/js.c:337-374 | a good escape gives one to three bytes and never reads past the end; which bytes, `JsonRoundTrip.EscapeOfPiece` says |
| JsonRead.Utf8RoundTrip | src/json/js.c:355-366 | the bytes stored for any 16-bit value decode, by the bit layout of section 3 of RFC 3629 and in shortest form, to that value |
| JsonGen.JSONGen.constructor | src/json/jsgen.c:42-50 | starts empty on the caller's static buffer or on nothing |
| JsonGen.JSONGen.AssertSpaceFor | src/json/jsgen.c:60-95 | succeeds exactly when there is room or the allocator grants a block; keeps what was written across the move off the static buffer and every regrowth; a refused move loses the buffer |
| JsonGen.JSONGen.Putc | src/json/jsgen.c:97-105 | appends one byte, or leaves the text alone and a request was refused |
| JsonGen.JSONGen.PutStr | src/json/jsgen.c:119-130 | appends the bytes, or leaves the text alone and a request was refused |
| JsonGen.JSONGen.NeedSeparator | src/json/jsgen.c:132-148 | the backwards loop finds the last byte that is no space, and asks for ", " unless it opens a slot |
| JsonGen.JSONGen.PutString | src/json/jsgen.c:150-182 | appends the separator if due and the quoted, escaped C string |
| JsonGen.JSONGen.BeginContainer | src/json/jsgen.c:184-191 | appends the separator if due and the opener |
| JsonGen.JSONGen.PutKey | src/json/jsgen.c:212-221 | appends the separator if due, the quoted key and ": " |
| JsonGen.JSONGen.PutToken | src/json/jsgen.c:223-306 | appends the separator if due and the token as it stands |
| JsonGen.StartsJoined | src/json/jsgen.c:319-323 | the loop finds whether the text begins, behind spaces, with a closer, comma or colon |
| JsonGen.JSONGen.PutJSON | src/json/jsgen.c:309-334 | appends the text, with the separator if one is due and the text does not bring its own; empty text is an error that changes nothing |
| JsonGen.JSONGen.GetJSON | src/json/jsgen.c:337-356 | the finished text with a NUL behind it; the text itself is unchanged |
| JsonGen.PrintEnds | src/json/jsgen.c:132-148 | every printed value ends in a byte that asks for a separator |
| JsonGen.SepAfterValue | src/json/jsgen.c:132-148 | behind any value the last-byte rule puts ", " |
| JsonGen.SepAfterOpener | src/json/jsgen.c:132-148 | behind an opener or colon it puts nothing |
| JsonSerialize.SerializeValue | src/json/jstree.cpp:953-1008 | appends exactly the tree's structural text, ", " between siblings and nowhere else; fails only if an allocation was refused |
| JsonSerialize.SerializeObject | src/json/jstree.cpp:953-1008 | the same for an object, brace to brace |
| JsonSerialize.SerializeArray | src/json/jstree.cpp:953-1008 | the same for an array |
| JsonLayout.PrintedIsSpelled | src/json/jstree.cpp:953-1008 | the generator's text of a tree is one of the layouts, and stands for the tree cut at NULs |
| JsonSkip.SkipSpelled | src/json/js.c:125-157 | started on a value in any layout, embedded in text that cannot extend it, Skip returns exactly the end of the value and of the spaces behind it, at any depth, with brackets and quotes inside strings |
| JsonSkip.SkipPrinted | src/json/js.c:125-157 | so on any printed value |
| JsonRoundTrip.EnumInitAt | src/json/js.c:259-276 | EnumInit stops behind the opener and all its spaces |
| JsonRoundTrip.NextMember | src/json/js.c:160-185 | on an object's members in any layout ObjectNext reports the first key and the first value, and moves behind the comma and all spaces to the next key or the brace; a comma before the brace changes nothing |
| JsonRoundTrip.NextElement | src/json/js.c:188-204 | on an array's elements in any layout ArrayNext reports the first and moves to the next or the bracket |
| JsonRoundTrip.CodePointRead | src/json/js.c:316-334 | four hex digits, each in either case, are read as the number they spell |
| JsonRoundTrip.EscapeOfPiece | src/json/js.c:337-374 | every two-byte escape, `\/` included, and every \u escape gives the bytes it stands for |
| JsonRoundTrip.GetStringSpelled | src/json/js.c:486-536 | a string in any spelling is read as the bytes it stands for |
| JsonRoundTrip.StringsAreSpelled | src/json/js.c:486-536 | on any bytes GetString succeeds exactly where such a string stands, with those bytes |
| JsonRoundTrip.UnicodeRead | src/json/js.c:316-374 | where \u and four hex digits stand in a string, the bytes read there decode, by section 3 of RFC 3629, to the number the digits spell |
| JsonRoundTrip.GetStringQuoted | src/json/js.c:486-536 | reading a printed string gives the bytes before its first NUL |
| JsonRoundTrip.GetKeySpelled | src/json/js.c:444-484 | a quoted key is read as its bytes, a bare one as its name, whatever spaces follow |
| JsonRoundTrip.ReadWord | src/json/jstree.cpp:797-939 | exactly what every single word is read as, valid JSON or not |
| JsonRoundTrip.BoolOfWord | src/json/js.c:775-801 | a word is true or false exactly when it is that keyword, alone or followed by an underscore |
| JsonRoundTrip.WordsTaken | src/json/jstree.cpp:797-939 | two words that are no JSON and are read |
| JsonRoundTrip.ReadSpelled | src/json/jstree.cpp:797-939 | reading a document at any offset of any text gives the tree it stands for, whatever its spaces, trailing commas, escapes and bare keys; order and duplicates kept |
| JsonRoundTrip.ReadText | src/json/jstree.cpp:941-951 | a whole document is read as its tree, and refused exactly when spaces stand in front of it |
| JsonRoundTrip.BrokenMemberEnds | src/json/jstree.cpp:816-838 | where ObjectNext fails behind complete members, exactly those are kept, without an error |
| JsonRoundTrip.ReadBroken | src/json/jstree.cpp:797-939 | so the object as a whole |
| JsonRoundTrip.BrokenElementEnds | src/json/jstree.cpp:797-939 | likewise an array's complete elements |
| JsonRoundTrip.BrokenRead | src/json/jstree.cpp:797-939 | a text with a key that has no value, and the tree read from it |
| JsonRoundTrip.ReadPrinted | src/json/jstree.cpp:797-939 | reading a printed tree at any offset of any text gives the tree cut at NULs, order and duplicates kept |
| JsonRoundTrip.ReadIsPrintable | src/json/jstree.cpp:797-939 | whatever bytes are read, the number tokens of the tree are single words |
| JsonRoundTrip.KeysReadNulFree | src/json/jstree.cpp:820-838 | keys of every tree read are C strings, whatever the text's keys decode to |
| JsonRoundTrip.ParsePrint | src/json/jstree.cpp:797-1008 | parsing a printed tree gives back that very tree exactly when no string or key holds a NUL |
| JsonRoundTrip.ParsePrintParse | src/json/jstree.cpp:797-1008 | for any bytes that parse, parse-print-parse is parse exactly when no string read holds a NUL; NULs in the text's keys do not matter |
| JsonRoundTrip.PrintInjective | src/json/jstree.cpp:953-1008 | different trees never print alike |
| JsonNumber.ScanRender | src/json/js.c:641-722 | scanning a literal of section 6 of RFC 8259 finds its sign, digits, fraction and exponent |
| JsonNumber.GetUNonNegative | src/json/js.c:641-722 | without a negative exponent: overflow when the magnitude's integer part exceeds 2^32 - 1, else an error when a fraction remains, else exactly the magnitude |
| JsonNumber.GetUNegative | src/json/js.c:641-722 | with a negative exponent: the exact quotient when the mantissa is an integer divisible within its digits, else an error, overflow checked before scaling |
| JsonNumber.WholeValuesRefused | src/json/js.c:700-718 | two literals with whole values that are errors |
| JsonNumber.IntsNonNegative | src/json/js.c:725-755 | GetInt and GetUInt on every literal without a negative exponent: its value when the C type holds it, else overflow, and an error for a fraction; a minus sign always makes GetUInt overflow |
| JsonNumber.IntsNegative | src/json/js.c:725-755 | the same on every literal with one |
| JsonNumber.OnlyScannedCounts | src/json/js.c:641-722 | on any token at all, what stands behind the place where the scan stops changes nothing |
| JsonNumber.JunkIgnored | src/json/js.c:641-746 | a token with letters behind its digits that is read as a number |
| JsonNumber.Quotient | src/json/js.c:685-718 | shifting digits from the fraction to the front is exact division by the power of ten, and the digits left tell whether it is whole |
| JsonNumber.ScaleUpIs | src/json/js.c:686-699 | the digit-by-digit loop overflows exactly when its final value would |
| JsonNumber.ScanU | src/json/js.c:616-625 | the loop computes a digit run's value and end |
| JsonNumber.ReadU | src/json/js.c:641-722 | the source's scan, with its early returns, computes the specified result on every token whose digit runs fit 63 bits |
| JsonNumber.IntRoundTrip | src/json/js.c:725-746 | GetInt after PutInt is the identity on all 32-bit signed values |
| JsonNumber.UIntRoundTrip | src/json/js.c:748-755 | GetUInt after PutUInt is the identity on all 32-bit unsigned values |
| JsonPath.FirstMatch | src/json/jstree.cpp:500-528 | the first pair with the key, or none has it |
| JsonPath.FollowPath | src/json/jstree.cpp:530-564 | the loop over the path string computes PathGet |
| JsonPath.IndexIsDecimal | src/json/jstree.cpp:481-498 | a segment is an index exactly when it is not empty and all digits, and denotes its decimal value modulo 2^32 |
| JsonPath.GetByDecimal | src/json/jstree.cpp:481-564 | the path that writes k in decimal gets element k exactly when there is one |
| JsonPath.NextDot | src/json/jstree.cpp:543-550 | memchr cuts the path into its first segment and the rest |
| JsonPath.CreatePathObjects | src/json/jstree.cpp:567-622 | the loop from the path's end builds the value wrapped once per later segment and puts it under the first, or fails on an index the cast would make negative |
| JsonPath.WrapLast | src/json/jstree.cpp:567-622 | wrapping from the last segment backwards is wrapping from the first forwards |
| JsonPath.SetThenGet | src/json/jstree.cpp:626-663 | what a successful PathSet stored, PathGet finds, also through objects and null-padded arrays it had to create |
| JsonPath.SetKeepsOthers | src/json/jstree.cpp:626-663 | every path that resolved before, with steps that part from those of the set path, takes the same steps to the same value |
| JsonPath.ResolveIffGet | src/json/jstree.cpp:530-564 | the steps of a path are defined exactly when PathGet succeeds |
| JsonNodes.JSArrayNode.ArraySet | src/json/jstree.cpp:323-374 | pads with nulls and puts the value last, growing the array if the allocator agrees; otherwise nothing changes |
| JsonNodes.PutHolds | src/json/jstree.cpp:323-374 | what every index holds after a set, behind the old end too: the value last, the elements before it kept, nulls in the gap |
| JsonNodes.PutReplacesIffLast | src/json/jstree.cpp:352-367 | setting an existing element replaces just that element only at the end |
| JsonNodes.PutCuts | src/json/jstree.cpp:352-367 | setting the first of two elements leaves one |
| JsonNodes.JSObjectNode.FindPair | src/json/jstree.cpp:424-426 | the loop finds the first pair with the key |
| JsonNodes.JSObjectNode.ObjectSet | src/json/jstree.cpp:412-469 | the first pair with the key gets the value, else a pair is added; fails only if a request was refused, and then changes nothing |
| JsonNodes.JSObjectNode.ObjectRemove | src/json/jstree.cpp:427-440 | the first pair with the key goes and the rest keep their order |
| JsonNodes.RemoveKeepsOthers | src/json/jstree.cpp:412-469 | after a removal every other key is found with its pair as before, the key itself exactly if a later pair repeats it, and no other pair is lost |
| JsonNodes.SetPairIsPathSet | src/json/jstree.cpp:626-663 | ObjectSet is PathSet with a one-segment path |
| JsonNodes.CloneValue | src/json/jstree.cpp:725-765 | the recursive copy with its loops computes the specified clone |
| JsonNodes.ClonedPairs | src/json/jstree.cpp:669-693 | a cloned object keeps every pair in order if no key repeats and otherwise has fewer |
| JsonNodes.CloneIsCopy | src/json/jstree.cpp:669-765 | a clone equals its source exactly when no object in it repeats a key |
| JsonNodes.RepeatedKeyMerges | src/json/jstree.cpp:669-693 | an object with a key twice and its smaller clone |
| JsonNodes.CloneTwice | src/json/jstree.cpp:669-765 | a clone of a clone equals it |
| JsonLookup.CompareKey | src/json/js.c:384-424 | a quoted key in any spelling compares equal to the segment exactly when it decodes to the segment and does not end in an escape |
| JsonLookup.FindSpelledKey | src/json/js.c:426-440 | over members in any layout the first match wins, and its offset is where the value stands |
| JsonLookup.FindSpelledNth | src/json/js.c:304-314 | over elements in any layout the n-th is found exactly when there is one |
| JsonLookup.FindSpelledSegment | src/json/js.c:558-579 | one segment over the text agrees with one segment over the tree |
| JsonLookup.LookupAgrees | src/json/js.c:588-612 | for every value in any layout, spaces in front of the text included, whose keys are regular, and every path of non-empty segments, text lookup succeeds exactly when PathGet does and no segment ends in an escaped byte, at an offset where PathGet's node stands |
| JsonLookup.LookupThenRead | src/json/js.c:588-612 | ReadValue at the offset found reads PathGet's node |
| JsonLookup.LookupPrinted | src/json/js.c:588-612 | over any printed tree lookup succeeds under that condition and finds where PathGet's node is read |
| JsonLookup.QuoteEndingKeyMissed | src/json/js.c:395-408 | a concrete key ending in a quote is found in the tree and missed in the text |
| JsonLookup.BareKeyMissed | src/json/js.c:384-440 | a text with a bare key that is read and found in the tree and missed in the text |
| JsonLookupLoops.CompareKey | src/json/js.c:384-424 | the comparing loop computes the specified comparison |
| JsonLookupLoops.ObjectLookup | src/json/js.c:426-440 | the loop returns the first matching member's value |
| JsonLookupLoops.ArrayLookup | src/json/js.c:304-314 | the counting loop returns the indexed element |
| JsonLookupLoops.LookupPath | src/json/js.c:588-612 | the loop over the path string computes the lookup that `JsonLookup.LookupAgrees` is about, indices as `JsonPath.IndexIsDecimal` says |
| NalScan.PrefixIsCode | src/omx/preview_component.cpp:83-98 | the word comparison and the shift recognise exactly the three- and four-byte start codes of Annex B of ITU-T H.264 |
| NalScan.OneNalAccounts | src/omx/preview_component.cpp:117-164 | on any bytes, skipped bytes, start code and unit add up to the count returned, and the unit is one slice |
| NalScan.BeginsAtFirstCode | src/omx/preview_component.cpp:90-139 | on any bytes the unit begins behind the first start code, of three bytes or four |
| NalScan.NoCodeNoUnit | src/omx/preview_component.cpp:117-164 | without a start code all bytes are skipped and there is no unit |
| NalScan.JumpStopsAtCode4 | src/omx/preview_component.cpp:143-159 | the four-byte jumps never pass a four-byte start code |
| NalScan.JumpIsByteScan | src/omx/preview_component.cpp:143-159 | a sufficient condition: when the next start code has four bytes or is at the scan point, the jumping scan stops where the byte-by-byte search does |
| NalScan.JumpMeetsByteScan | src/omx/preview_component.cpp:137-159 | on any bytes from any place the two scans stop at one place exactly when the search meets no code, a four-byte one, or a bare one at which the jumping scan comes to stand |
| NalScan.BareCodeMet | src/omx/preview_component.cpp:143-153 | over bytes without a zero a bare code is met exactly at a multiple of four bytes |
| NalScan.JumpRefinesBytes | src/omx/preview_component.cpp:117-164 | when every 00 00 01 behind the scan point follows a 00, jumping refines the byte search from any place |
| NalScan.BareCodeMissed | src/omx/preview_component.cpp:143-153 | a concrete stream whose bare three-byte code is jumped over |
| NalScan.ScanUnit | src/omx/preview_component.cpp:143-159 | from inside a unit allowed by section 7.4.1 of ITU-T H.264 the scan runs to its end |
| NalScan.SplitJoin | src/omx/preview_component.cpp:117-164 | splitting a stream of units joined with four-byte codes gives back exactly those units |
| NalScan.SplitBehindJunk | src/omx/preview_component.cpp:117-164 | so does a stream that begins with bytes in which no code starts and whose first code has three bytes or four |
| RtpComponent.CopyUnit | src/omx/preview_component.cpp:137-163 | the copying loop stops where the scan does; the target holds the unit's bytes, of a unit too large all but three of those that fit, and nothing past its size changes |
| RtpComponent.CopyOneNal | src/omx/preview_component.cpp:117-164 | reports the bytes scanned and the full size of the unit behind the first start code (`NalScan.BeginsAtFirstCode`), with the unit in the target |
| RtpComponent.RtpComponent.constructor | src/omx/preview_component.cpp:45-65 | starts with nothing held |
| RtpComponent.RtpComponent.ReadableIffNoWait | src/omx/preview_component.cpp:80 | isReadable holds exactly when a read would not wait |
| RtpComponent.RtpComponent.EmptyBuffer | src/omx/preview_component.cpp:272-293 | a buffer with data is queued last and its bytes arrive; an empty one is bounced and changes nothing |
| RtpComponent.RtpComponent.Advance | src/omx/preview_component.cpp:193-202 | consumed bytes come off the front; the buffer goes back, in FIFO order, exactly when all its bytes are consumed |
| RtpComponent.RtpComponent.GetData | src/omx/preview_component.cpp:180-205 | copies the next bytes of the stream up to the end of one buffer |
| RtpComponent.RtpComponent.GetOneNalUnit | src/omx/preview_component.cpp:224-260 | copies the next unit, or of one too large all but three of the bytes that fit, always makes progress, and accounts for every byte scanned |
| RtpComponent.ReadUnits | src/omx/preview_component.cpp:224-260 | repeated reads of a buffer of joined units return exactly those units and then hand the buffer back |
| CameraParams.UpdateInPieces | src/virtual/camera_virtual.cpp:375-402 | the complete items of a first text are final; its remainder is read with the second |
| CameraParams.ComposesIffClosed | src/virtual/camera_virtual.cpp:375-402 | updating twice equals updating from the concatenation, for every map and second text, exactly when the first text ends with a complete item |
| CameraParams.SemicolonDoesNotCompose | src/virtual/camera_virtual.cpp:375-402 | a lone semicolon followed by an item, in one text and in two |
| CameraParams.UpdateItems | src/virtual/camera_virtual.cpp:375-402 | updating from written items sets them one by one |
| CameraParams.UpdateMergesWritten | src/virtual/camera_virtual.cpp:367-402 | updating from another object's text merges exactly its map, for keys without = and values without ; |
| CameraParams.WrittenReadsBack | src/virtual/camera_virtual.cpp:367-402 | a map is read back from its own text exactly when it is of that kind |
| CameraParams.UpdateOverrides | src/virtual/camera_virtual.cpp:375-402 | what a text sets does not depend on the map it updates |
| CameraParams.InitFixesRate | src/virtual/camera_virtual.cpp:782-811 | whatever the device reports, init leaves rate "30" and range "30000,30000" |
| CameraParams.RateStaysFixed | src/virtual/camera_virtual.cpp:417-436 | so does any sequence of setParameters calls after it |
| CameraParams.CameraVirtualParams.UpdateFrom | src/virtual/camera_virtual.cpp:375-402 | the strchr loop computes the update |
| CameraParams.CameraVirtualParams.WriteObject | src/virtual/camera_virtual.cpp:367-373 | the loop writes every entry once |
| CameraParams.CameraVirtualParams.SetFrom | src/virtual/camera_virtual.cpp:840-853 | a text that fails validation changes nothing; any other updates the map |
| CameraParams.SetsAllOrNothing | src/virtual/camera_virtual.cpp:840-853 | a text is refused exactly when it does not itself fix the rate, and then no key changes; otherwise its keys are set and every other key keeps its value |
| CameraParams.SetFromObject | src/virtual/camera_virtual.cpp:840-853 | setting from another object with clean entries merges exactly its map, or nothing |
| FramePool.ApplyInv | src/virtual/camera_virtual.cpp:171-326 | every alloc, acquireRef, releaseRef, copy and drop keeps each frame free once or referenced, never both, and container_ set exactly while referenced |
| FramePool.PoolOutlivesFrames | src/virtual/camera_virtual.cpp:234-263 | over any run the destructor has run exactly when no pointer and no frame reference is left, so its assert never fires |
| FramePool.LongestFreeFirst | src/virtual/camera_virtual.cpp:279-326 | over any run frames are handed out in exactly the order in which they were free or came back |
| FramePool.CameraVirtualFramePool.constructor | src/virtual/camera_virtual.cpp:202-232 | all frames free, in order, and ready |
| FramePool.CameraVirtualFramePool.AcquireRef | src/virtual/camera_virtual.cpp:171-176 | is the acquire step |
| FramePool.CameraVirtualFramePool.AllocFrame | src/virtual/camera_virtual.cpp:279-294 | hands out the frame that has been free longest, as the alloc step |
| FramePool.CameraVirtualFramePool.ReleaseRef | src/virtual/camera_virtual.cpp:305-326 | is the release step, running the destructor when the last pointer goes; its assert holds |
| PreviewQueue.ApplyInv | src/virtual/camera_virtual.cpp:464-611 | every step of the three threads keeps references taken equal to references given back plus held ones |
| PreviewQueue.ReleasedExactlyOnce | src/virtual/camera_virtual.cpp:464-611 | under every interleaving a frame is never released more often than enqueued, and exactly as often once the worker is stopped |
| PreviewQueue.FirstInFirstOut | src/virtual/camera_virtual.cpp:464-611 | over any interleaving frames leave, to the worker or dropped, in exactly the order in which they were accepted, up to those still pending |
| PreviewQueue.StopStuckIff | src/virtual/camera_virtual.cpp:464-501 | once stop has begun no step of the worker nor the join can be taken exactly when the worker waits for a scaled frame while listeners hold all seven |
| PreviewQueue.StuckUntilListenerDone | src/virtual/camera_virtual.cpp:279-294 | no run without a listener's release changes that |
| PreviewQueue.StopCompletes | src/virtual/camera_virtual.cpp:574-600 | in every other state the worker's own steps let the join return, and then nothing is held |
| PreviewQueue.StopCanHang | src/virtual/camera_virtual.cpp:464-600 | a run from the idle state to a stuck stop |
| PreviewQueue.CameraVirtualPreview.StartPreview | src/virtual/camera_virtual.cpp:511-546 | a running worker is left alone; otherwise it starts with a new pool; the invariant is kept |
| PreviewQueue.CameraVirtualPreview.ReleasePending | src/virtual/camera_virtual.cpp:548-558 | the loop releases every pending frame once |
| PreviewQueue.CameraVirtualPreview.EnqueueFrame | src/virtual/camera_virtual.cpp:602-611 | a frame is referenced and queued only while running and not paused |
| PreviewQueue.CameraVirtualPreview.PickFrame | src/virtual/camera_virtual.cpp:475-479 | the worker takes the oldest frame, keeping the invariant |
| PreviewQueue.CameraVirtualPreview.AllocScaled | src/virtual/camera_virtual.cpp:483 | it takes a free scaled frame, keeping the invariant |
| PreviewQueue.CameraVirtualPreview.FinishFrame | src/virtual/camera_virtual.cpp:485-497 | it releases source and scaled frame, keeping the invariant |
| PreviewQueue.CameraVirtualPreview.EndStop | src/virtual/camera_virtual.cpp:574-600 | the part of stop behind the join is its step |
| CameraVirtual.CallKeepsConsistent | src/virtual/camera_virtual.cpp:872-936 | with foreign calls succeeding, a call keeps worker, stream, pause flag, scaler and programmed size consistent (while streaming, the recording size if recording, else the preview size) exactly when it switches to no unreadable size and does not replace the saved preview size without switching |
| CameraVirtual.RunStaysConsistent | src/virtual/camera_virtual.cpp:872-936 | a run is consistent before and after every call exactly when no call in it does |
| CameraVirtual.StartsAndStopsConsistent | src/virtual/camera_virtual.cpp:872-936 | with readable sizes any sequence of starts and stops stays consistent, so streams at the right size |
| CameraVirtual.UnparsedSizeStallsPreview | src/virtual/camera_virtual.cpp:926-936 | an unreadable preview size leaves preview on, paused and not streaming when recording stops |
| CameraVirtual.UnparsedSizeRun | src/virtual/camera_virtual.cpp:840-936 | a run from the constructed state that ends so |
| CameraVirtual.NoVideoSizeReplacesSaved | src/virtual/camera_virtual.cpp:899-924 | a startRecording without a video size that leaves another preview size saved than the one streaming |
| CameraVirtual.StartsAtItsSize | src/virtual/camera_virtual.cpp:649-701 | from any state and with any device a startPreview that succeeds streams at params' preview-size and a startRecording that succeeds at its video-size, and frames of that size are scaled |
| CameraVirtual.StartSucceedsIff | src/virtual/camera_virtual.cpp:872-924 | exactly when startPreview and startRecording succeed, from any state and with any device |
| CameraVirtual.StopsAtPreviewSize | src/virtual/camera_virtual.cpp:926-936 | a stopRecording while previewing goes back to the saved preview size exactly when that parses and the device obeys, and stays paused exactly when it does not parse |
| CameraVirtual.CallKeepsScale | src/virtual/camera_virtual.cpp:508-572 | frames are scaled to the saved preview size, whatever the device answers, exactly until a startRecording while previewing saves one of other dimensions |
| CameraVirtual.RunKeepsFlagsBacked | src/virtual/camera_virtual.cpp:872-936 | with any mix of failing foreign calls a set flag still implies a running worker |
| CameraVirtual.LeavesStaleWorker | src/virtual/camera_virtual.cpp:649-672 | a call leaves a worker with both flags off exactly when it is a start from rest with readable sizes and a pool that the device refuses to program or to start |
| CameraVirtual.FailedStartLeavesStale | src/virtual/camera_virtual.cpp:649-672 | a new camera and such a start |
| CameraVirtual.StaleUntilStop | src/virtual/camera_virtual.cpp:872-936 | that worker goes exactly with the next stop |
| CameraVirtual.StaleWorkerBlocksStarts | src/virtual/camera_virtual.cpp:649-672 | it makes every further start fail |
| CameraVirtual.CameraVirtual.Play | src/virtual/camera_virtual.cpp:649-672 | startPlaying with each of its early failures, at the size `CameraVirtual.StartsAtItsSize` says |
| CameraVirtual.CameraVirtual.Resume | src/virtual/camera_virtual.cpp:680-701 | resumePlaying with each of its early failures |
| CameraVirtual.CameraVirtual.PreviewOn | src/virtual/camera_virtual.cpp:872-890 | startPreview's new state and result; flags stay backed, and consistency is kept as CallKeepsConsistent says |
| CameraVirtual.CameraVirtual.PreviewOff | src/virtual/camera_virtual.cpp:892-897 | stopPreview's new state, with the same guarantees |
| CameraVirtual.CameraVirtual.RecordingOn | src/virtual/camera_virtual.cpp:899-924 | startRecording's new state and result, with the same guarantees; streaming at the video size |
| CameraVirtual.CameraVirtual.RecordingOff | src/virtual/camera_virtual.cpp:926-936 | stopRecording's new state, with the same guarantees |
| BufferPool.BufferPool.Init | src/omx/buffer_pool.cpp:42-76 | ready with all buffers free exactly when every request was granted; otherwise what was allocated is freed again |
| BufferPool.BufferPool.Final | src/omx/buffer_pool.cpp:82-103 | every buffer is freed and the pool is no longer ready |
| BufferPool.BufferPool.AllocBuf | src/omx/buffer_pool.cpp:124-139 | hands out the buffer free longest and never a freed one; none when no longer ready |
| BufferPool.BufferPool.ReleaseBuf | src/omx/buffer_pool.cpp:109-118 | the buffer carries no frame and is last in the free list |
| OmxDrain.ApplyInv | src/omx/camera_component.cpp:46-114 | every step of dispatchers, component and callbacks keeps pool, references, buffer owners and lock in agreement |
| OmxDrain.Conservation | src/omx/camera_component.cpp:46-114 | over any run each of the N buffers is free once or in flight, and the references held are exactly the frames in flight, also when the component refuses buffers |
| OmxDrain.StuckIsStarved | src/omx/camera_component.cpp:46-114 | the only states where no thread with work can move have a dispatcher holding the lock in allocBuf with no buffer free |
| OmxDrain.StarvesWhen | src/omx/buffer_pool.cpp:124-139 | such a state is entered exactly when a dispatcher takes the lock with no buffer free |
| OmxStarvation.StarvationReached | src/omx/camera_component.cpp:46-86 | from any state with one free buffer and two threads outside, a run of two dispatches into such a state |
| OmxStarvation.OpenedStarves | src/omx/camera_component.cpp:46-86 | such a run of a drain just opened with one buffer |
| OmxDrain.StarvedForever | src/omx/camera_component.cpp:96-114 | no run leaves such a state |
| OmxDrain.DispatchIsRun | src/omx/camera_component.cpp:46-86 | one dispatch left uninterrupted is a run of the step system with the stated outcome |
| OmxDrain.OmxDrain.DispatchOmx | src/omx/camera_component.cpp:46-86 | that outcome, and EIO, ENOMEM and EIO on the three error paths with nothing kept |
| OmxDrain.OmxDrain.EmptyBufferDone | src/omx/camera_component.cpp:96-114 | while open the buffer's frame loses its reference and the buffer is free; after close nothing happens |
| FileSink.ApplyInv | src/omx/file_component.cpp:56-83 | every step keeps accepted buffers in order: returned, lost, in work, pending |
| FileSink.FileIsPrefix | src/omx/file_component.cpp:56-140 | under every interleaving of encoder, writer and close the file holds the first k accepted payloads, k being the number returned or one more, and at most one buffer is lost, none while open |
| FileSink.CloseLosesWork | src/omx/file_component.cpp:56-140 | a close loses exactly the buffer in work; in every further run nothing is written or returned and what is pending stays pending |
| FileSink.LostUnwritten | src/omx/file_component.cpp:70-79 | a run with a close before the write: neither file nor encoder gets the buffer |
| FileSink.LostWritten | src/omx/file_component.cpp:70-79 | a run with a close behind the write: the file has it, the encoder does not |
| FileSink.WriterFinishes | src/omx/file_component.cpp:56-83 | while open the writer's own steps can all be taken and leave everything accepted returned and in the file |
| FileSink.OmxFileSink.Accept | src/omx/file_component.cpp:153-171 | an empty buffer bounces, any other is queued last; the invariant is kept |
| FileSink.OmxFileSink.DrainPending | src/omx/file_component.cpp:56-83 | left to itself the writer loop returns everything accepted and the file holds all payloads in order |
| QCamDaemon.MessageNotEmpty | src/qcamdaemon.cpp:218-222 | each framing iteration consumes at least one byte |
| QCamDaemon.HandleMessage | src/qcamdaemon.cpp:210-233 | the loop hands on what Skip takes for values, one directly behind the other, unclosed containers included, and stops at a space or where Skip fails or runs over the end |
| QCamDaemon.MessagesAreBytes | src/qcamdaemon.cpp:210-233 | the messages are, in order, exactly the bytes processed |
| QCamDaemon.ConnectionKeepsBytes | src/qcamdaemon.cpp:345-384 | over all reads of a connection, messages and skipped spaces followed by the kept tail are the bytes received |
| QCamDaemon.ErrorBlocks | src/qcamdaemon.cpp:345-384 | a tail on which Skip fails is never passed: no message is handled any more and the buffer only fills up |
| QCamDaemon.BlockedIff | src/qcamdaemon.cpp:345-384 | a tail yields no message for any further reads exactly when Skip fails on it or there is no room for what it needs: a quote or two for an unclosed string, else one byte |
| QCamDaemon.BraceHashBlocks | src/qcamdaemon.cpp:345-384 | a blocked tail whose first byte starts a value |
| QCamDaemon.DelayedIffBehindSpace | src/qcamdaemon.cpp:366-380 | a complete message stays in the tail exactly when the pass came to a space and the message stands behind the spaces there |
| QCamDaemon.SecondLineWaits | src/qcamdaemon.cpp:366-380 | two lines of which the second waits |
| QCamDaemon.UnclosedTaken | src/qcamdaemon.cpp:210-233 | an unclosed object is handed on |
| QCamDaemon.Daemon.HandleInput | src/qcamdaemon.cpp:345-384 | a read adds its bytes, hands on its messages in order and keeps the tail; an empty read resets the buffer; a failed one changes nothing |
| QCamDaemon.FullBufferDropped | src/qcamdaemon.cpp:345-364 | 512 bytes without a message, then the empty read a full buffer forces: all are dropped |
| QCamDaemon.Daemon.KeepTail | src/qcamdaemon.cpp:376-380 | the overlapping move keeps the tail's bytes in order |

## Left out

- Foreign code: OMX, live555, ION, ioctl, mmap, C2D scaling, sockets, fork, syslog. Only results and hand-over appear.
- Trees are values: nodes of one container change in place in `JsonNodes`, but aliasing between nodes, freeing, and the shared null and boolean nodes are not modelled, nor is a parsed string's length that counts its NUL.
- Failing allocations while a tree is built, read, cloned or set by path.
- JsonNodes.JSArrayNode.ArraySet: does not model removal, which clears the last remaining slot and leaves a null pointer there, nor sizes from 2^29 slots on, where the byte count passed as an int wraps, nor position 2^31 - 1, where position plus one overflows.
- JsonPath.CreatePathObjects: on an index of 2^31 or more, where it returns None, the source indexes out of bounds; `IndexFits` admits indices that ArraySet cannot serve, as above.
- A null value for a key that is missing from an object: the source then stores a null pointer.
- JsonGen.JSONGen.PutString: does not cover a refused move off the static buffer with text in it (`MoveSafe`), after which the source reads through a null pointer.
- JsonGen.JSONGen.PutKey: the same, as it calls PutString.
- JsonSerialize.SerializeValue: assumes that the one move off the static buffer, if it comes, is granted, for the same reason.
- JsonGen.JSONGen.PutJSON: a text of spaces only, behind whose end the source reads.
- JsonGen.JSONGen.NeedSeparator: does not cover a text of spaces only, where the source would read in front of the buffer; no tree produces one.
- JsonNumber.ReadU: does not model overflow of the 64-bit accumulators, nor a token at a non-zero offset, where the source computes a wrong end; the tree always reads at offset 0.
- JsonLookup.LookupAgrees: paths with empty segments or with indices of 2^31 and more, which the cast to int makes negative, are excluded; over the tree the latter have no result (`Wild`).
- JsonLookup.FindSpelledKey: members with a bare key, whose comparison starts at its second byte and can run on behind it, and keys that spell their last byte as an escape where the generator does not or the reverse; `JsonLookup.CompareKey` covers the latter key by key.
- GetDouble, PutDouble and number tokens with a plus sign, which the scanner splits.
- RtpComponent.CopyOneNal: what a truncated target holds in its last three bytes, which the source computes with shifts by the word size.
- Waiting itself: reads of an empty queue are calls that have not happened yet.
- FramePool.CameraVirtualFramePool.ReleaseRef: one step, although the source releases the pool's lock inside it; an alloc in between would break the pool.
- Resolution parsing is an arbitrary function of the text; of the scaler only its two sizes appear.
- Reopening the drain for another component while buffers are in flight.
- The file sink's second opening, and its statistics.
- Request handling behind the framing, the session and camera caches, the encoder configuration and the command lines: thin layers over the parts above.
