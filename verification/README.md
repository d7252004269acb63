# Verification model of the OTA daemon's logic

The repository is the over-the-air update daemon of a phone: a JSON library, an
MD5 implementation, socket message framing, an event loop with its bounded queue,
and the block I/O that stores a message for the boot loader. This project models
the parts with real logic in them and proves what they promise. Paths below are
relative to the repository's root; each row cites the code it models.

## How the model is built

Code that works step by step is a class with the source's fields and loops
(`Reader`, `FastWriter`, `StyledWriter`, `MD5`, `ClientSocket`, `EventLooper`,
`WriteContext`, `ReadContext`, `BatchAllocator`). Each of its methods is tied to a
function of its inputs and its old state, and the theorems are about those
functions, for all inputs and all runs. A `char` stands for one byte wherever the
source uses `char`; `byte` and `word` are 8- and 32-bit integers.

- **JSON values** (`JsonValue`, `JsonOrder`): a value is a body plus its offsets, a
  `std::map` is the list of its entries in key order. `operator<` is proved a strict
  total order in step with `operator==`, and which order it is is said by kinds, payloads
  and first differences.
- **JSON reader** (`JsonText`, `JsonScan`, `JsonNumber`, `JsonParse`, `JsonSteps`, `JsonReader`,
  `JsonErrors`): the class walks its cursor, node stack and error list exactly as `Reader`
  does and is proved against the function `Parse`. Reading terminates, even inside error
  recovery, and fails with exactly one error, which lies in the document and is true of it.
- **RFC 8259** (`JsonSyntax`, `JsonGaps`, `JsonAccept`, `JsonExact`, `JsonQuirks`): syntax
  trees of the grammar in sections 2 to 7 (`ValidJson`) and of the looser texts the reader
  takes, comments included (`LooseJson`), the text of a tree (`Render`) and what it means
  (`Denote`). Every text of the grammar is accepted and gives its meaning; any document
  is accepted if and only if it starts with a loose text. The grammar has its own tables of
  white space, escapes and number characters and shares none with the scanner.
- **JSON writers** (`JsonPrint`, `JsonWriter`, `JsonRoundTrip`, `JsonLayout`, `JsonStable`):
  what the three writers print is shown to be text of the grammar, so all round trips follow from the
  acceptance theorem; the styled writers differ from the fast one in white space
  outside strings only, and where that stands is determined by depth alone.
- **Offsets** (`JsonSpans`): the ranges the reader records nest, siblings are disjoint,
  and the slice of the document under any value is itself a document for that value.
- **MD5** (`Md5Reference`, `Md5KnownAnswer`, `Md5Stream`): sections 3.1 to 3.5 of RFC 1321
  as functions of the whole message, a known answer worked through all 64 operations, and
  the incremental class.
- **Framing** (`Framing`, `MessageJson`): `<length>:<payload>` frames cut out of arbitrary
  chunks, and the JSON object in a frame.
- **Flash I/O** (`Alignment`, `Mtd`, `Bootloader`): the coalescing buffers over a
  partition whose transfers the kernel may cut short, and the read-modify-write on top.
- **Queue and looper** (`MutexQueue`, `FullQueue`, `EventLooper`, `LooperRuns`): the queue
  as a transition system over the points where threads can be interleaved, with listeners
  that send events themselves, the looper's listener list, and both together with the
  dispatch loop and with other threads that register and unregister listeners.
- **Slab allocator** (`BatchAllocator`) and **UTF-8 test** (`TextEncoding`).

`Decimal`, `CStrings`, `Memory` and `Optional` hold what several components share.

## What the code does that its documentation or intent does not say

The model follows the code; each point has its own statement.

- `MD5::final` restores state and counter but not the buffer. A digest taken in the
  middle of a stream leaves it usable exactly when fewer than 56 bytes were buffered
  or the buffered bytes happen to be the ones `final` put there (`ResumableIff`). In
  every case later digests are those of the message with the buffered bytes replaced
  (`DigestThenContinue`, `DigestLosesTail`).
- The block loop of `update` counts in 32 bits. It ends exactly on pieces whose length,
  with the bytes buffered before them, is below 2^32 (`LoopEndsIff`), and then its test
  is right at every position it visits (`GuardIs`); `OverrunExample` is a piece on which
  it never ends.
- `ReadData` computes a frame's end with the length of the C string of its header. A
  NUL in a header makes the outcome depend on how the stream was cut
  (`ChunkingIrrelevantIff`, `NulHeaderExample`). An illegal header is never removed: every
  later call fails exactly when the buffer is whole frames and then a header whose number
  is not positive (`FailsForEverIff`, `ZeroHeaderExample`).
- `Front` tests with `if`, so a second dispatcher or a wakeup without a signal makes it
  read an empty queue; `NeverFailsIff` says exactly when that cannot happen.
- `Pop` never signals `m_condFull`: a sender that waits for room waits for ever unless it
  is woken without a signal (`FullSleepersStay`). That happens in some run exactly when
  some thread only sends and `Push` has no wakeups without a signal (`StuckIff`,
  `SenderSleepsIff`).
- Listeners send events from the thread that dispatches. With one such thread, a run in
  which it waits for room itself ends all dispatching for ever, whoever is woken up and
  for whatever reason, so a signal in `Pop` would not help. Such a run exists exactly when
  listeners may send, the queue has room for an event, and some thread only sends
  (`DispatcherDiesIff`, `ListenerStuckIff`).
- `registerListener` tests `m_InLoop` before it takes the lock, so a call that overlaps the
  start of the loop can still change the list under it. The list is frozen in every
  continuation exactly when each such registration is listed already and each such
  removal is not (`FrozenIff`, `OverlapExample`); a removal can make the loop read an index
  behind the end of the list, where `at` throws (`RemovalThrows`).
- `mtd_write_close` fills the last block with zeros, so `set_bootloader_message_mtd`
  overwrites bytes behind its three pages unless they are zero already or the pages
  end with an erase block (`OnlyMessageChangesIff`, `GapExample`).
- The allocator tests fullness with `used_ == end_`: its slots stay inside the memory of
  their batch exactly when the slot size divides the page (`StaysInMemoryIff`).
- The reader is more liberal than RFC 8259. Text behind the root value is ignored
  (`TrailingTextExample`); a number token may be any run of number characters, and a lone
  `-` is 0 (`LoneMinusExample`); an object may end in a comma after a member with an empty
  name (`DanglingCommaExample`); strings may hold control characters. Comments are skipped
  behind values and before names whatever the setting, before values with it, and neither
  before a colon nor in an empty array (`CommentedEmptyExample`). Behind a comment any
  token is taken for the comma between members (`CommaMissedIff`,
  `AnyTokenForCommaExample`).
- Two escapes of RFC 8259 have no sensible value: that for NUL ends its string
  (`NulEscapeExample`), and a high surrogate needs another escape behind it, whatever
  that is (`LoneHighExample`). `ValidJson` leaves out the first and all unpaired
  surrogates; `AcceptedIff` says exactly what is accepted.
- `IsTextUTF8` looks at the lengths of sequences only: 0xFE and 0xFF open five bytes, and
  overlong forms, surrogates and code points above 0x10FFFF pass. `WellFormedIff` says
  which of the texts it takes are UTF-8, `FiveByteExample` is one that is not.
- `codePointToUTF8` encodes a surrogate like any other code point (`UTF8RoundTrip`).

## Model

| member | source | states |
|---|---|---|
| JsonAccept.GrammarAccepted | ffos/ota/src/json/json_reader.cpp:104-216 | Every text of the RFC 8259 grammar without escapes for NUL or unpaired surrogates, with white space before it (space, tab, line feed, carriage return) and any text behind it that does not prolong a number, parses without error, stops at its end and gives the value the grammar assigns to it; later duplicates of a member name win |
| JsonExact.AcceptedIff | ffos/ota/src/json/json_reader.cpp:104-216 | A document, with comments or without, is accepted if and only if it starts with white space and comments and a loose text, before whose values comments stand only if the setting allows them, and which under strict root is an array or object; the value is what that text denotes and reading stops at its end |
| JsonAccept.DocumentAccepted | ffos/ota/src/json/json_reader.cpp:104-216 | The half of it that says such a document is accepted, with no error recorded |
| JsonExact.ValueFound | ffos/ota/src/json/json_reader.cpp:145-216 | Whatever is read successfully anywhere in a document is white space, comments and a loose text, by induction over arrays and objects |
| JsonExact.SeparatorFound | ffos/ota/src/json/json_reader.cpp:440-451 | What stands between two members is a comma or, behind a comment, one token |
| JsonGaps.OneTokenIff | ffos/ota/src/json/json_reader.cpp:235-304 | The texts described as one token by their characters are exactly those the scanner takes for one token that is neither a comment nor a closing brace |
| JsonGaps.GapSkipped | ffos/ota/src/json/json_reader.cpp:218-225 | The four white space characters and terminated comments, block or line, are skipped up to the next token |
| JsonGaps.GapFound | ffos/ota/src/json/json_reader.cpp:327-379 | and whatever is skipped before a token is made of them and of nothing else |
| JsonExact.StringFound | ffos/ota/src/json/json_reader.cpp:608-716 | A string token that decodes is made of plain characters, one-letter escapes, escapes of four digits that are no high surrogate, and pairs that start with one |
| JsonAccept.EscapedIs | ffos/ota/src/json/json_reader.cpp:622-650 | The reader knows exactly the eight one-letter escapes of RFC 8259, section 7, each for its character |
| JsonExact.NumberFound | ffos/ota/src/json/json_reader.cpp:504-550 | A number token that decodes is digits alone, possibly none, behind an optional minus sign, or a text the C library can read |
| JsonQuirks.TrailingTextExample | ffos/ota/src/json/json_reader.cpp:121-125 | `null]` is accepted as null |
| JsonQuirks.LoneMinusExample | ffos/ota/src/json/json_reader.cpp:504-550 | `-` is accepted as 0 and is no number of the grammar |
| JsonQuirks.DanglingCommaExample | ffos/ota/src/json/json_reader.cpp:413-414 | An object with an empty name and a comma before its closing brace is accepted |
| JsonQuirks.CommaMissedIff | ffos/ota/src/json/json_reader.cpp:440-451 | When a value is not followed by the closing brace, a missing comma is reported if and only if the next token is no comma and no comment stands before it |
| JsonQuirks.AnyTokenForCommaExample | ffos/ota/src/json/json_reader.cpp:440-451 | Behind a comment a closing bracket is taken for the comma and two members are read |
| JsonQuirks.CommentedEmptyExample | ffos/ota/src/json/json_reader.cpp:457-467 | `[/**/]` is refused, whatever the setting |
| JsonQuirks.NulEscapeExample | ffos/ota/src/json/json_reader.cpp:608-659 | The string `a\u0000b` is read as `a` |
| JsonQuirks.LoneHighExample | ffos/ota/src/json/json_reader.cpp:661-690 | The string `\ud800` is refused |
| JsonAccept.ValueAccepted | ffos/ota/src/json/json_reader.cpp:145-216 | A loose text behind white space and comments, anywhere inside a document, is read completely and gives what it denotes, by induction over arrays and objects |
| JsonAccept.StringAccepted | ffos/ota/src/json/json_reader.cpp:390-400 | A string of the grammar, or a looser one, is one string token up to its closing quote and decodes to its characters, escapes and surrogate pairs included |
| JsonAccept.NumberAccepted | ffos/ota/src/json/json_reader.cpp:504-550 | A number of the grammar, or a looser one, is one token; an integer in range gets its exact value, signed up to 2^31-1 or when negative, unsigned above |
| JsonParse.ReadValue | ffos/ota/src/json/json_reader.cpp:145-216 | Reading a value never leaves the document; success records no error and consumes text, failure records exactly one error that lies between the start and the end of the document |
| JsonParse.ReadMembers | ffos/ota/src/json/json_reader.cpp:402-455 | The same for the member loop, which always yields an object |
| JsonParse.ReadElements | ffos/ota/src/json/json_reader.cpp:457-492 | The same for the element loop, which always yields an array |
| JsonParse.Recover | ffos/ota/src/json/json_reader.cpp:728-739 | Skipping to the closing token terminates inside the document |
| JsonParse.Parse | ffos/ota/src/json/json_reader.cpp:104-143 | Success exactly when no error is recorded; a failure has one error without strict root, at most two with it, all inside the document |
| JsonErrors.ErrorsJustified | ffos/ota/src/json/json_reader.cpp:104-216 | Every error of a failed parse is true of the document: the token it names is the one at its place and not one that could stand there; an error in a number or string names such a token, a number error only where the C library cannot read the text; the error about the root is there exactly when strict root asks for an array or object in vain |
| JsonErrors.DecodeJustified | ffos/ota/src/json/json_reader.cpp:608-716 | The place an error in a string points to: behind a letter that is no escape, a missing or wrong hexadecimal digit, or a high surrogate that no second escape follows |
| JsonReader.Reader.ParseDocument | ffos/ota/src/json/json_reader.cpp:104-143 | The cursor-driven reader computes exactly `Parse`: success, value and error list; the cursor ends behind the first token after the position `Parse` gives |
| JsonReader.Reader.ReadValue | ffos/ota/src/json/json_reader.cpp:145-216 | Overwrites the value on top of the node stack with the outcome and leaves the stack below it alone |
| JsonReader.Reader.ReadObject | ffos/ota/src/json/json_reader.cpp:402-455 | The member loop with its child pushed and popped computes `ReadMembers` |
| JsonReader.Reader.ReadArray | ffos/ota/src/json/json_reader.cpp:457-492 | The element loop computes the outcome of an array, the empty one included |
| JsonReader.Reader.NextToken | ffos/ota/src/json/json_reader.cpp:235-304 | The scanner's character switch yields the token of the document at that place and stops at its end |
| JsonReader.Reader.ReadString | ffos/ota/src/json/json_reader.cpp:390-400 | Stops behind the first quote that no backslash escapes, or at the end of the document |
| JsonReader.Reader.ReadComment | ffos/ota/src/json/json_reader.cpp:327-379 | Both comment forms, unterminated ones included |
| JsonReader.Reader.DecodeNumberToken | ffos/ota/src/json/json_reader.cpp:504-550 | The digit loop with its overflow test takes the integer path exactly when the magnitude is at most 2^63 (negative) or 2^64-1, and then stores the exact value |
| JsonReader.TooLarge | ffos/ota/src/json/json_reader.cpp:528-541 | Where the loop gives up, the whole number really exceeds the limit |
| JsonReader.Reader.DecodeStringToken | ffos/ota/src/json/json_reader.cpp:608-659 | The decoding loop yields the text of the escapes, or the first error and its place |
| JsonReader.Reader.DecodeUnicodeCodePoint | ffos/ota/src/json/json_reader.cpp:661-716 | A code point from one escape or a surrogate pair, with each error's place |
| JsonReader.Reader.RecoverFromError | ffos/ota/src/json/json_reader.cpp:728-746 | Errors met while skipping are dropped again |
| JsonSpans.ParsePlaces | ffos/ota/src/json/json_reader.cpp:163-191 | After a successful parse every range lies inside its parent's, siblings are disjoint, and reading at a value's start finds that value |
| JsonSpans.SliceIsDocument | ffos/ota/src/json/json_reader.cpp:163-191 | For every value of a parsed document, its slice parsed alone succeeds, is consumed completely and gives the same value, offsets aside |
| JsonSpans.ValueInSlice | ffos/ota/src/json/json_reader.cpp:145-216 | A successful read depends only on the bytes it consumed, up to a shift of the offsets |
| JsonText.UTF8RoundTrip | ffos/ota/src/json/json_tool.h:18-44 | Every code point but the surrogates is encoded as a well-formed UTF-8 sequence that decodes to it; what a surrogate becomes does not decode |
| JsonText.UTF8Unique | ffos/ota/src/json/json_tool.h:18-44 | Whatever decodes to a code point is the encoding of that code point |
| JsonText.UTF8Examples | ffos/ota/src/json/json_tool.h:18-44 | Four characters of the examples in section 7 of RFC 3629, one for each length |
| JsonText.HexDigitIff | ffos/ota/src/json/json_reader.cpp:692-716 | The digits of a \u escape are the ten digits and six letters in either case, each with its value |
| JsonText.Hex4Example | ffos/ota/src/json/json_reader.cpp:692-716 | The four digits 12aB are 0x12ab |
| JsonRoundTrip.FastRoundTrip | ffos/ota/src/json/json_writer.cpp:166-219 | Parsing what `FastWriter` wrote succeeds, consumes all of it and gives the value back, integers in the reader's representation and array holes as null; writing the value read prints the same document again |
| JsonStable.ReadWriteRead | ffos/ota/src/json/json_reader.cpp:104-216 | Whatever document is accepted, of at most 2^31 - 1 bytes and without reals, its value is one the writers can print, and parsing what `FastWriter` prints for it gives the same value again |
| JsonStable.ReadIsValid | ffos/ota/src/json/json_reader.cpp:104-216 | Every value read from a document of that length is valid, as the theorems on the order assume: numbers in range, integers up to 2^31-1 signed and larger ones unsigned, strings without NUL, arrays without holes, members sorted and without duplicates |
| JsonRoundTrip.NormalPrintsSame | ffos/ota/src/json/json_writer.cpp:173-219 | A value with its integers and holes so changed prints the identical text |
| JsonRoundTrip.StripPrintsSame | ffos/ota/src/json/json_writer.cpp:173-219 | and so does a value with other offsets |
| JsonRoundTrip.StyledRoundTrip | ffos/ota/src/json/json_writer.cpp:227-386 | The same round trip for both styled writers |
| JsonRoundTrip.StyledIsFastPlusSpace | ffos/ota/src/json/json_writer.cpp:450-614 | Without the white space outside strings, a styled document is `FastWriter`'s text |
| JsonRoundTrip.StyledIsGrammar | ffos/ota/src/json/json_writer.cpp:238-331 | What a styled writer appends is white space and a grammar text of the value |
| JsonLayout.StyledIsPretty | ffos/ota/src/json/json_writer.cpp:238-386 | Although they decide by the last character of the document so far, both styled writers produce a layout given by the depth alone: one line for each element and member, indented by its depth times three spaces or the given unit, brackets of `StyledStreamWriter` on lines of their own |
| JsonLayout.StyledDocumentIs | ffos/ota/src/json/json_writer.cpp:227-236 | A styled document is that layout at depth 0 and a newline |
| JsonLayout.FitsLineIs | ffos/ota/src/json/json_writer.cpp:333-356 | An array stands on one line exactly when it has fewer than 25 elements, all without parts of their own, and that line is shorter than 74 characters |
| JsonLayout.YamlExample | ffos/ota/src/json/json_writer.cpp:209-217 | For YAML one space follows the colon |
| JsonLayout.OtherLeaves | ffos/ota/src/json/json_writer.cpp:173-195 | Reals are what the C library prints, a null string pointer is nothing, and null is dropped when placeholders are |
| JsonRoundTrip.QuoteDenotes | ffos/ota/src/json/json_writer.cpp:90-150 | The quoted form of a C string is a grammar string that denotes it |
| JsonRoundTrip.QuotedStringRoundTrip | ffos/ota/src/json/json_writer.cpp:90-150 | Whatever follows it, a quoted string is read up to exactly its closing quote and decodes to the string |
| JsonLayout.QuotedIsShortest | ffos/ota/src/json/json_writer.cpp:90-150 | No text of the grammar that denotes a string is shorter than the one the writers choose |
| JsonLayout.ControlQuoted | ffos/ota/src/json/json_writer.cpp:137-142 | Control characters without a letter are written as four upper-case hexadecimal digits |
| JsonRoundTrip.IntegerRoundTrip | ffos/ota/src/json/json_writer.cpp:32-51 | Every integer from -2^63 to 2^64-1 is printed so that it reads back exactly, without help from the C library |
| JsonWriter.UintToString | ffos/ota/src/json/json_tool.h:63-69 | Writes the decimal digits and a NUL backwards inside the 25-byte buffer and nothing before or behind them |
| JsonWriter.SignedToString | ffos/ota/src/json/json_writer.cpp:32-43 | The decimal text for every 64-bit value, the smallest one through its own negation |
| JsonWriter.UnsignedToString | ffos/ota/src/json/json_writer.cpp:45-51 | The decimal text for every unsigned 64-bit value |
| JsonWriter.ValueToQuotedString | ffos/ota/src/json/json_writer.cpp:90-150 | The short path and the escaping loop give the same, fully escaped text |
| JsonWriter.FastWriter.Write | ffos/ota/src/json/json_writer.cpp:166-171 | The document is exactly the text of the value |
| JsonWriter.FastWriter.WriteValue | ffos/ota/src/json/json_writer.cpp:173-219 | Appends the text of the value to the document |
| JsonWriter.StyledWriter.Write | ffos/ota/src/json/json_writer.cpp:227-236 | The document is the styled text of the value and a newline, whatever earlier writes left in the scratch fields |
| JsonWriter.StyledWriter.WriteValue | ffos/ota/src/json/json_writer.cpp:238-288 | Appends the styled text and restores the indentation; while leaf texts are collected, adds exactly one of them instead |
| JsonWriter.StyledWriter.WriteArrayValue | ffos/ota/src/json/json_writer.cpp:290-331 | The one-line and the multi-line layout of an array |
| JsonWriter.StyledWriter.IsMultineArray | ffos/ota/src/json/json_writer.cpp:333-356 | Decides the layout and leaves in `childValues` nothing or one text per element |
| JsonWriter.StyledWriter.PushValue | ffos/ota/src/json/json_writer.cpp:358-363 | One more collected text, or the text at the end of the document, by the switch |
| JsonWriter.StyledWriter.WriteIndent | ffos/ota/src/json/json_writer.cpp:365-374 | The line break and indentation of either styled writer |
| JsonOrder.TotalOrder | ffos/ota/src/json/json_value.cpp:504-595 | `operator<` is irreflexive and transitive, respects `operator==`, and `compare` is 0 exactly on equality and antisymmetric; the rows below say which order it is |
| JsonOrder.KindsOrdered | ffos/ota/src/json/json_value.cpp:512-515 | Values of different kinds are ordered null, signed integer, unsigned integer, real, string, truth value, array, object |
| JsonOrder.LeavesOrdered | ffos/ota/src/json/json_value.cpp:516-531 | Two numbers of one kind compare as numbers, false is less than true, a null string pointer is less than any string, and of two strings the one is less that has the smaller byte where they first differ, or ends there |
| JsonOrder.ContainersOrdered | ffos/ota/src/json/json_value.cpp:532-540 | Of two arrays or two objects the one with fewer entries is less; with equally many, the first position where key or value differ decides, the key before the value |
| JsonOrder.Trichotomy | ffos/ota/src/json/json_value.cpp:512-549 | Of any two valid values exactly one is less or they are equal, through all nesting |
| JsonOrder.LessTransitive | ffos/ota/src/json/json_value.cpp:512-549 | Transitivity, through size-first and lexicographic comparison of maps |
| JsonOrder.EqualIsStrip | ffos/ota/src/json/json_value.cpp:557-595 | `operator==` looks at everything but the offsets |
| JsonValue.PutFind | ffos/ota/src/json/json_value.cpp:917-993 | Storing under a key keeps the map sorted, is found under that key and changes no other |
| JsonValue.SizeIs | ffos/ota/src/json/json_value.cpp:831-849 | The size of an array is the number behind its highest index, whatever holes there are |
| JsonValue.KeyTransitive | ffos/ota/src/json/json_value.cpp:199-209 | Keys of one map, indices or names, are transitively ordered |
| JsonValue.KeyTotal | ffos/ota/src/json/json_value.cpp:199-209 | and exactly one of two different keys is the smaller |
| JsonValue.StringLessIff | ffos/ota/src/json/json_value.cpp:199-203 | One string is below another exactly when some prefix is common to both, the second goes on, and the first ends there or goes on with a smaller byte |
| JsonValue.KeyLessIff | ffos/ota/src/json/json_value.cpp:199-203 | Names are compared so, indices by their size |
| Decimal.PrintRoundTrip | ffos/ota/src/json/json_tool.h:63-69 | Printed decimals are digits without leading zeros and read back as the number |
| Decimal.DigitIff | ffos/ota/src/json/json_tool.h:63-69 | The ten digits and their values |
| Decimal.PlacesExample | ffos/ota/src/json/json_reader.cpp:528-541 | 305 is 305: the places weigh powers of ten |
| Md5Stream.StreamingDigest | ffos/ota/src/utils/Md5.cpp:168-235 | However a message is cut into pieces on which the block loop ends, the first digest after a reset is the MD5 of the whole message |
| Md5Stream.UpdateTracks | ffos/ota/src/utils/Md5.cpp:168-205 | After `update` the state is the fold over the complete blocks, the buffer starts with the rest, the counter is 8 times the length modulo 2^64 |
| Md5Stream.DigestTracks | ffos/ota/src/utils/Md5.cpp:207-235 | The padding and length `final` feeds through `update` give the RFC 1321 digest |
| Md5KnownAnswer.AlphabetDigest | ffos/ota/src/utils/Md5.cpp:238-386 | The digest of the 26 letters is the one in appendix A.5 of RFC 1321 |
| Md5Reference.SelectF | ffos/ota/src/utils/Md5.cpp:32-33 | F takes the bits of y where x is 1 and those of z where it is 0; G is F with z in front |
| Md5Reference.ParityH | ffos/ota/src/utils/Md5.cpp:34 | H is the parity of three bits |
| Md5Reference.FlipI | ffos/ota/src/utils/Md5.cpp:35 | I is the complement of y where z is 0 and the exclusive or of x and y where it is 1 |
| Md5Reference.Rotations | ffos/ota/src/utils/Md5.cpp:39 | For each of the sixteen amounts, rotating by s gives x times 2^s plus x divided by 2^(32-s), modulo 2^32 |
| Md5Reference.WordBytesRead | ffos/ota/src/utils/Md5.cpp:389-409 | A word is read back from its bytes, the least significant of which comes first |
| Md5Stream.ResumableIff | ffos/ota/src/utils/Md5.cpp:207-235 | State, buffer and counter are still those of the message after a digest exactly when fewer than 56 bytes are buffered, or they equal what `final` left there |
| Md5Stream.AfterDigestTracks | ffos/ota/src/utils/Md5.cpp:207-235 | In every case they are those of the message with the buffered bytes replaced by what `final` left there |
| Md5Stream.DigestThenContinue | ffos/ota/src/utils/Md5.cpp:93-100 | A second digest, and every digest after more data, is the MD5 of the message so changed followed by the new data; with fewer than 56 bytes buffered it is the message itself |
| Md5Stream.DigestLosesTail | ffos/ota/src/utils/Md5.cpp:207-235 | The second digest of 56 ones is the MD5 of 56 zeros |
| Md5Stream.LoopEndsIff | ffos/ota/src/utils/Md5.cpp:189-194 | Over the positions the loop visits, for a piece of any length, its 32-bit test fails at some point if and only if the piece and the bytes buffered before it are below 2^32 bytes |
| Md5Stream.GuardIs | ffos/ota/src/utils/Md5.cpp:189-194 | and then the test means `i + 63 < length` without wrapping at every position visited |
| Md5Stream.OverrunExample | ffos/ota/src/utils/Md5.cpp:189-194 | With one byte buffered and a piece of 2^32 - 1 bytes the test lets a block through where no byte is left, and the loop never ends |
| Md5Stream.MD5.Reset | ffos/ota/src/utils/Md5.cpp:103-113 | The initial state, an empty count, not finished |
| Md5Stream.MD5.Update | ffos/ota/src/utils/Md5.cpp:168-205 | The fields change as the value-level update says, for every piece on which the block loop ends |
| Md5Stream.MD5.TransformBlocks | ffos/ota/src/utils/Md5.cpp:189-194 | The block loop transforms all complete blocks and leaves fewer than 64 bytes |
| Md5Stream.MD5.Finish | ffos/ota/src/utils/Md5.cpp:207-235 | Stores the digest, restores state and count, leaves the padding in the buffer and `_finished` cleared |
| Md5Stream.MD5.TakeDigest | ffos/ota/src/utils/Md5.cpp:93-100 | Computes the digest unless finished, in which case nothing changes |
| Md5Stream.MD5.TransformBlock | ffos/ota/src/utils/Md5.cpp:238-386 | The unrolled four rounds are the 64 operations of RFC 1321, section 3.4, added to the old state |
| Md5Stream.MD5.EncodeWords | ffos/ota/src/utils/Md5.cpp:389-399 | Words to bytes, least significant first, nothing behind them touched |
| Md5Stream.MD5.DecodeWords | ffos/ota/src/utils/Md5.cpp:402-409 | Bytes to words, least significant first |
| Md5Stream.MD5.BytesToHexString | ffos/ota/src/utils/Md5.cpp:412-424 | Two digits per byte |
| Md5Stream.HexStringReads | ffos/ota/src/utils/Md5.cpp:412-424 | which are lower-case hexadecimal digits, the high one first, and read as a number give the byte |
| Framing.FramedDelivery | ffos/ota/src/socket/ClientSocket.cpp:141-179 | For all payloads framed by the sender and all ways the network cuts them, no receive fails, exactly the complete payloads have come out in order, and exactly the unconsumed bytes are buffered |
| Framing.ArrivedIsLargest | ffos/ota/src/socket/ClientSocket.cpp:141-179 | "Complete" means the largest number of whole frames among the bytes received |
| Framing.ChunkingIrrelevantIff | ffos/ota/src/socket/ClientSocket.cpp:141-179 | For arbitrary bytes, two receives equal one exactly when no frame's header held a NUL and was cut short |
| Framing.NulFreeIsExact | ffos/ota/src/socket/ClientSocket.cpp:152-158 | Bytes without NUL are always in that case |
| Framing.NulHeaderExample | ffos/ota/src/socket/ClientSocket.cpp:152-158 | A header that shows the difference |
| Framing.FailsForEverIff | ffos/ota/src/socket/ClientSocket.cpp:150-158 | Every later receive fails, whatever bytes it delivers, if and only if the buffer is whole frames followed by a header whose number is not positive |
| Framing.IllegalHeaderIsFinal | ffos/ota/src/socket/ClientSocket.cpp:155-158 | After a failed receive every later one fails and emits nothing |
| Framing.ZeroHeaderExample | ffos/ota/src/socket/ClientSocket.cpp:155-158 | The frame of an empty payload is such a header |
| Framing.ClientSocket.ReadData | ffos/ota/src/socket/ClientSocket.cpp:129-180 | The loop emits the frames of the buffer and the received bytes, keeps the rest, and returns 0 or -1 accordingly |
| Framing.Message.JoinElements | ffos/ota/src/ota/message/Message.cpp:34-55 | Prints the payload with its length in decimal and a colon before it |
| Framing.FrameStep | ffos/ota/src/ota/message/Message.cpp:48-55 | A printed frame is taken off the buffer when complete and waited for otherwise, colons in the payload notwithstanding |
| MessageJson.MessageParses | ffos/ota/src/ota/message/Message.cpp:34-47 | When the type needs no escapes and the data is a JSON text, the payload is one too: `Reader` consumes all of it and finds the type and the value of the data under their names |
| Framing.AtoiPrint | ffos/ota/src/socket/ClientSocket.cpp:153-154 | `atoi` reads back the printed length |
| Framing.AtoiIs | ffos/ota/src/socket/ClientSocket.cpp:153-154 | Any text splits into white space, at most one sign, digits and the rest, and `atoi` gives the signed value of the digits |
| Framing.FindFirstSymbol | ffos/ota/src/utils/StringUtils.cpp:30-33 | The first occurrence, or -1 exactly when there is none |
| TextEncoding.IsTextUTF8 | ffos/ota/src/utils/StringUtils.cpp:90-136 | True exactly for texts of whole multi-byte sequences that are not all ASCII |
| TextEncoding.UnitLengths | ffos/ota/src/utils/StringUtils.cpp:100-122 | Which bytes open sequences of one to six bytes |
| TextEncoding.EncodedTextIsWhole | ffos/ota/src/utils/StringUtils.cpp:90-136 | Every UTF-8 encoding of code points is made of whole sequences, and is all ASCII only if they are |
| TextEncoding.WellFormedIff | ffos/ota/src/utils/StringUtils.cpp:100-122 | A text encodes code points in UTF-8 if and only if it is made of whole sequences, no byte is 0xC0, 0xC1 or above 0xF4, and the byte after 0xE0, 0xED, 0xF0 or 0xF4 is in the range RFC 3629 gives |
| TextEncoding.FiveByteExample | ffos/ota/src/utils/StringUtils.cpp:100-122 | 0xFE and four continuation bytes pass the test and encode nothing |
| Mtd.WriteContext.WriteData | ffos/ota/src/platform/mtd/mtdutils.c:516-544 | Fails exactly when a transfer comes up short; afterwards whole blocks on the device followed by the buffer are the stream so far, less than a block is buffered, and in every case the device holds a prefix of the stream and its old bytes behind it |
| Mtd.WriteContext.WriteBlock | ffos/ota/src/platform/mtd/mtdutils.c:429-445 | One block at the file position, or as much of it as the kernel took |
| Mtd.WriteContext.EraseBlocks | ffos/ota/src/platform/mtd/mtdutils.c:546-594 | Pads the pending data with zeros, then writes blocks of 0xFF; -1 exactly on a short transfer or too many blocks, else the position before erasing |
| Mtd.ErasedBytes | ffos/ota/src/platform/mtd/mtdutils.c:546-594 | Byte by byte: the stream, zeros up to the end of its last block, then 0xFF for each block asked for |
| Mtd.ErasesAll | ffos/ota/src/platform/mtd/mtdutils.c:560-565 | With a negative number of blocks, less than a block is left behind the erased ones |
| Mtd.WriteContext.Close | ffos/ota/src/platform/mtd/mtdutils.c:596-607 | 0 exactly when no transfer was short, and then the stream stands on the device zero-padded to whole blocks |
| Mtd.CallsDoNotMatter | ffos/ota/src/platform/mtd/mtdutils.c:516-544 | Device and buffer are determined by the stream alone, however it was cut into calls |
| Mtd.ReadContext.ReadData | ffos/ota/src/platform/mtd/mtdutils.c:351-383 | Successful reads of any sizes return consecutive slices of the partition; -1 exactly on a short transfer |
| Mtd.ReadContext.ReadBlock | ffos/ota/src/platform/mtd/mtdutils.c:297-308 | One block from the file position, with the position moved by what was read |
| Mtd.RoundUpFrom | ffos/ota/src/platform/mtd/mtdutils.c:548-554 | Padding completes the last block and adds none to whole ones |
| Bootloader.SetBootloaderMessage | ffos/ota/src/platform/RecoveryManager.cpp:31-74 | 0 exactly when both contexts open and no transfer is short, and then, with pages of p bytes, p being the larger of 16384 and the erase size the driver gives, the 1088 bytes from p on are the message and all others of the first 3p bytes are what they were; on failure every byte is old, or the one of the message that belongs there, or a zero behind the pages |
| Bootloader.ByteAfter | ffos/ota/src/platform/RecoveryManager.cpp:40-70 | Every single byte of the partition after a complete or interrupted write, by its position |
| Bootloader.OnlyMessageChangesIff | ffos/ota/src/platform/RecoveryManager.cpp:56-70 | A successful write puts the message at the start of the second page, keeps all other bytes of the three pages, and changes nothing behind them exactly when the rest of the last erase block was zero |
| Bootloader.FailureKeepsTheRest | ffos/ota/src/platform/RecoveryManager.cpp:63-70 | Then an interrupted write loses no other byte either, wherever it stops |
| Bootloader.AlignedHasNoGap | ffos/ota/src/platform/RecoveryManager.cpp:46-48 | There is no such rest when the erase size divides three pages |
| Bootloader.UsualSizesAreAligned | ffos/ota/src/platform/mtd/mtdutils.c:248-256 | It does when driver and partition agree on an erase size of at least 16384 or a divisor of it |
| Bootloader.GapExample | ffos/ota/src/platform/RecoveryManager.cpp:46-70 | An erase size of 10000 bytes destroys bytes outside the message |
| MutexQueue.OneDispatcherIsSafe | ffos/ota/include/utils/MutexQueue.h:70-114 | In every interleaving of any number of senders with one dispatcher woken by signals only, whose listeners may send too: pushed is popped followed by the queue, the bound holds, `Pop` removes what `Front` returned, no empty read, and a sleeping dispatcher with work has a signal coming |
| MutexQueue.NeverFailsIff | ffos/ota/include/utils/MutexQueue.h:87-114 | For every configuration, no interleaving reads or pops an empty queue exactly when nobody dispatches, or no wakeup of `Front` is spurious and there is one dispatcher or nobody who can push |
| FullQueue.FullSleepersStay | ffos/ota/include/utils/MutexQueue.h:70-97 | Without wakeups of `Push` that nobody signalled, a sender waiting on `m_condFull` waits in every continuation of the run |
| FullQueue.SenderSleepsIff | ffos/ota/include/utils/MutexQueue.h:70-85 | For every configuration and bound, some run puts a sender to sleep exactly when some thread sends and does not dispatch |
| FullQueue.StuckIff | ffos/ota/include/utils/MutexQueue.h:70-97 | Some run leaves a sender asleep in all its continuations exactly when there is such a thread and `Push` is woken by signals only |
| FullQueue.ListenerStuckIff | ffos/ota/src/ota/daemon/OtaDaemon.cpp:94-125 | Some run leaves a dispatching thread asleep in a listener's `Push` in all its continuations exactly when listeners may send, an event can reach them, and `Push` is woken by signals only |
| FullQueue.DispatcherDiesIff | ffos/ota/src/ota/daemon/OtaDaemon.cpp:94-125 | With one dispatching thread, some run after which it stays inside a listener's `Push` and no event is popped in any continuation exists exactly when listeners may send and an event can reach them, however `Push` is woken |
| MutexQueue.SpuriousWakeupFails | ffos/ota/include/utils/MutexQueue.h:100-114 | A run in which a wakeup without a signal reads the empty queue |
| MutexQueue.TwoDispatchersFail | ffos/ota/include/utils/MutexQueue.h:87-114 | A run in which one dispatcher takes the event the other was woken for |
| MutexQueue.MutexKept | ffos/ota/include/utils/MutexQueue.h:70-114 | Exactly the thread inside the critical section holds the mutex, for any configuration |
| MutexQueue.StepSafe | ffos/ota/include/utils/MutexQueue.h:70-114 | The inductive step of the safety theorem |
| LooperRuns.EveryRunDelivers | ffos/ota/src/event/EventLooper.cpp:63-89 | In every interleaving of senders, the loop, listeners that send, and threads that register and unregister: once the loop has begun with no unfinished call that would change the list, the list is what the earlier calls left, without duplicates; the log splits into consecutive parts, one for each dispatched event in push order and the begun part of the current one; each part is, in the order of the list, one call for each listener of the event's sender and type, with the event's type and message; each handler is called once per event it is registered for; the loop does not throw |
| LooperRuns.LoopHasBegun | ffos/ota/src/event/EventLooper.cpp:63-64 | Every run in which `m_InLoop` is set goes through the start of the loop, so the two statements around it cover all runs |
| LooperRuns.ListenersSend | ffos/ota/src/event/EventLooper.cpp:68-85 | While an event is dispatched, the thread of the loop sends exactly from listeners, that is, when they may send and the first one has been called |
| LooperRuns.FrozenIff | ffos/ota/src/event/EventLooper.cpp:126-166 | From the start of the loop the list is the same in every continuation if and only if, of the calls that had already tested `m_InLoop`, each registration asks for a listed triple and each removal for one that is not listed |
| LooperRuns.RemovalThrows | ffos/ota/src/event/EventLooper.cpp:66-70 | A run in which such a removal makes the loop read behind the end of the list |
| LooperRuns.OverlapExample | ffos/ota/src/event/EventLooper.cpp:126-148 | A registration that overlaps the start of the loop is such a call |
| EventLooper.EachHandlerOnce | ffos/ota/src/event/EventLooper.cpp:68-85 | Each handler is called once for each event it is registered for and for no other, with that event's type and message |
| EventLooper.DeliveriesAre | ffos/ota/src/event/EventLooper.cpp:68-85 | One event goes to the listeners at increasing positions of the list, exactly those with its sender and type, each with its type and message |
| EventLooper.RegistrationsAre | ffos/ota/src/event/EventLooper.cpp:95-166 | After any calls no (sender, type, handler) triple is listed twice, and listed are exactly those whose last call was a registration |
| EventLooper.RegisteredIff | ffos/ota/src/event/EventLooper.cpp:95-107 | A triple is listed when some listener has that sender, type and handler |
| EventLooper.ListInOrder | ffos/ota/src/event/EventLooper.cpp:95-166 | The listeners stand in the order of the calls that added them, none of which a later call undid |
| EventLooper.EventLooper.RegisterListener | ffos/ota/src/event/EventLooper.cpp:126-148 | Refused while looping or for illegal parameters, else the triple is listed afterwards, at the end if it is new |
| EventLooper.EventLooper.UnregisterListener | ffos/ota/src/event/EventLooper.cpp:150-166 | True exactly when a listed triple was removed, and only that one is |
| EventLooper.EventLooper.FindListener | ffos/ota/src/event/EventLooper.cpp:95-107 | Finds a listener exactly when its triple is listed |
| EventLooper.EventLooper.RemoveListener | ffos/ota/src/event/EventLooper.cpp:109-124 | Erases the first listener of the triple and keeps the order of the others |
| EventLooper.EventLooper.DispatchEvent | ffos/ota/src/event/EventLooper.cpp:66-87 | One event reaches exactly its listeners, in the order of the list, with its type and message, although handlers may try to change the list |
| EventLooper.EventLooper.DoLoop | ffos/ota/src/event/EventLooper.cpp:63-89 | The log grows by consecutive parts, one for each event in order; the list is frozen |
| BatchAllocator.RunsKeepSlotsApart | ffos/ota/src/json/json_batchallocator.h:54-90 | In every run of well-matched calls, slots in use are disjoint, what was handed out is in use or on the free list and not both, and slots that divide the page lie inside their batches |
| BatchAllocator.AllocateSound | ffos/ota/src/json/json_batchallocator.h:54-79 | A slot handed out was not in use and overlaps no other; a new batch is made only when all batches are full and every slot is in use |
| BatchAllocator.ReleaseSound | ffos/ota/src/json/json_batchallocator.h:84-90 | A released slot joins the free list once |
| BatchAllocator.ReleaseThenAllocate | ffos/ota/src/json/json_batchallocator.h:54-90 | The slot released last is the next one handed out, and that undoes the release |
| BatchAllocator.StaysInMemoryIff | ffos/ota/src/json/json_batchallocator.h:62-79 | No run leaves the memory of a batch exactly when the slot size divides the page |
| Alignment.AlignedIff | ffos/ota/src/json/json_batchallocator.h:62-79 | "Divides" in these rows: one is a whole multiple of the other |
| BatchAllocator.BatchAllocator.Get | ffos/ota/src/json/json_batchallocator.h:54-79 | Pops the chain of links in the released slots, else takes the next slot of a batch with room |
| BatchAllocator.BatchAllocator.Put | ffos/ota/src/json/json_batchallocator.h:84-90 | Links the slot in front of the chain |

## Left out

- Real numbers: `sscanf` and `"%.16g"` are the parameters `scan` and `printReal`; round trips are about values without reals.
- Comments: skipped as the scanner skips them, not collected, placed or printed.
- `allowDroppedNullPlaceholders_` and `allowNumericKeys`: false in both sets of features the library offers, so their branches are not modelled; a writer that drops nulls is modelled but not round-tripped.
- Error texts and line numbers: an error is its kind, token and extra place.
- The reader's node stack holds values that are copied out of their parent and back in, not pointers into it; a child is written back when its reading ends.
- Null string pointers print as nothing and are outside the round trips, as are strings with NUL bytes; the styled round trips ask for an indentation unit of white space.
- Lengths: the `int` overflow of `size * 3` and `lineLength` for arrays of hundreds of millions of elements, the cap in `duplicateStringValue`, and `atoi` beyond `int`.
- `StyledWriter` and `StyledStreamWriter` are one class with the parameter `Layout`; the stream is a string.
- `Md5`: bytes are joined and split with arithmetic where the source uses shifts and `|`; reading files and comparing checksums are left out.
- Md5Stream.MD5.Update: asks for pieces that are below 2^32 bytes together with the bytes buffered before them, because on all others the source's loop never ends (`LoopEndsIff`).
- JsonOrder.Trichotomy: real numbers are mathematical, so a NaN is outside it; in the code it is neither less than, greater than nor equal to anything.
- JsonOrder.TotalOrder: for the same reason; with a NaN the code's `compare` is 0 without equality.
- JsonAccept.GrammarAccepted: not for escapes that stand for NUL or for an unpaired surrogate, on which `NulEscapeExample`, `LoneHighExample` and `AcceptedIff` say what happens.
- Sockets, logs, `select`, `open` and `close`: what `recv` delivers and whether the contexts open are parameters, closing a descriptor never fails.
- Bad-block handling, partition scanning and mounting: only the branch compiled for this platform is modelled.
- MutexQueue: errors returned by the pthread calls, destruction while in use, and `Size`, which takes no lock; a signal wakes one waiting thread.
- EventLooper.EventLooper.DoLoop: runs for a finite sequence of events, because the loop itself never ends; listeners that send are part of `LooperRuns`.
- `Path`, `Value::resize` and the internal maps and arrays, which are experimental; conversions such as `asInt`.
- `Downloader`, `CheckDaemon`, `OtaDaemon`, curl and the file system: retry loops around foreign calls with only easy properties.
- Out-of-memory behaviour of `malloc` everywhere.
