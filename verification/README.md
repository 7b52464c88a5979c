# A verified model of the IRC client libraries

This project models six components of a Go IRC library in Dafny 4.11 and proves what they are
for. `dafny verify dfyconfig.toml` checks all of it.

| component | Go package | Dafny modules |
|---|---|---|
| line codec: message tags, parser, printer, truncation | ircmsg | Utf8, Tags, Messages, Grammar, PrintedForm, RoundTrip, NormalForm, WireLimits |
| growing line reader | ircreader | PowerOfTwo, LineReader |
| SASL chunking | ircutils | Base64, Sasl |
| formatting codes | ircfmt | Formatting, ColourEscapes |
| batches and labeled responses | ircevent | Batches, BatchTrees, BatchStreams, BatchOrder, BatchDelivery, LabelText, Labels |
| capability negotiation and connection lifecycle | ircevent | Caps, Configuration, Lifecycle, FailedConnect, QuitAndLoop |

## How the code is represented

- A Go `string` or `[]byte` is a sequence of numbers 0..255; UTF-8 follows section 4 of RFC 3629.
- Loops and in-place updates are methods and classes with the source's own fields. Each is proved
  equal to a specification function, and the theorems are about those functions.
- The functions at the bottom (escapes, letters, control codes, tag names, defaults) are fixed once
  more by lemmas over literal bytes and text, so that nothing rests on a shared definition.
- A Go run-time panic is an outcome of its own (`Panic`, `Crash` or `None`), so the inputs that
  cause one are part of what is stated.
- The printer walks two Go maps in an unspecified order. Its contract reports the orders it
  happened to use, and every theorem holds for all orders that enumerate the maps.
- Heap-allocated `Batch` nodes are indices into an arena in allocation order, so a link that
  does not point forwards is exactly a link that could close a cycle.
- The connection under the line reader is a script of read results with arbitrary chunking and
  arbitrary errors; data and end-of-file may arrive together.
- In the concurrent parts each mutex section is one atomic step, timers and the network are
  nondeterministic, and time is a number. Theorems range over every finite interleaving.

## What turned out differently from the obvious claim

- Printing and parsing is the identity *exactly* for canonical messages: no space in source or
  command, upper-case ASCII command, and a command that does not begin with `:` at the front of
  the body or with `@` at the front of the line (`RoundTrip.PrintThenParse`).
- A strict parse agrees with a strict print except for one family of messages: no source, no
  tags, and a command that begins with `@` and runs on past the tag limit before its first space
  (`WireLimits.StrictParseAccepts`; `WireLimits.LongCommandRefused` is a member of it).
- A non-zero print limit below 2 cuts into the tag section (`WireLimits.TinyLimitCutsTags`); below
  5, and without tags, truncation panics exactly if no whole character is left
  (`WireLimits.FinishCutsBody`, `Utf8.TruncateAnyBytes`).
- A batch that names itself as its parent becomes its own item, and flattening it does not end;
  this is the only message that breaks the forest (`Batches.SelfParentCycle`,
  `BatchTrees.SelfParentNeverEnds`, `BatchDelivery.SelfParentExample`).
- A labeled batch whose label has no callback when it is closed is only logged: nobody sees its
  lines (`BatchStreams.DeliveredTree`, `BatchDelivery.UnclaimedBatchIsDropped`).
- In a stream whose inner batches close first, every line is handed out exactly once (or, for
  such an unclaimed batch, not at all) if and only if inner closes, and only those, carry the
  batch tag (`BatchDelivery.ExactlyOnceIffTagsRight`). Closing an inner batch without it hands its
  lines out twice (`BatchDelivery.UntaggedInnerCloseDeliversTwice`,
  `BatchDelivery.UntaggedStreamDeliversTwice`).
- `SendWithLabel` may return an error although its callback is called: shutdown can sweep the
  table between registration and the failed send. It happens exactly if the table was drained, or
  the label expired or was answered, between `registerLabel` and `unregisterLabel`
  (`Labels.FailedSendMayFire`, `Labels.FailedSendFiresIff`, `Labels.FailedSendFiresBySchedule`).
- `Connect` clears `running` without closing `end`: that is sound exactly if the connection is
  already stopped (`Lifecycle.GuardNeedsStopped`).
- A comment in `Connect` says that on failure all goroutines are stopped. The three that are waited
  for are; `readMsgLoop`, which `readLoop` starts, may still be alive
  (`FailedConnect.MsgLoopOutlivesConnect`). It can then only leave, in at most two steps
  (`FailedConnect.LeftoverOnlyLeaves`).
- The same comment says that the socket is closed. That holds exactly if no socket was forgotten
  and none is held: after a success, `Connect` called again instead of `Loop` forgets the first
  socket, on which the old `readMsgLoop` may block, or, once the client has quit, returns with
  that socket still open (`FailedConnect.FailedConnectSockets`, `FailedConnect.ForgottenSocket`).
- A comment in `Loop` says that after a failed reconnect the stop checks return at once. They always
  do (`QuitAndLoop.FailedReconnectStopsAtOnce`). But a `Loop` entered before any `Connect` got as far
  as setting up a connection waits on a nil channel for ever
  (`QuitAndLoop.StopCheckIff`, `QuitAndLoop.LoopWithoutConnectionHangs`, `QuitAndLoop.HangIsReachable`).
- A colour without a background followed by text that starts with a comma and a digit is read
  back with a background (`ColourEscapes.ForegroundReadBack`).
- `roundUpToPowerOfTwo` smears 32 bits. Its comment promises a power of two for every argument;
  that holds exactly if v - 1 has no 32 zeros in a row below its leading one, so for all v up to
  2^32 and not for 2^32 + 1, and on a 64-bit int only up to 2^62 (`PowerOfTwo.RoundUpIsPowerIff`,
  `PowerOfTwo.RoundUpFirstFailure`, `PowerOfTwo.RoundUpWrappedIff`).
- The reader's `Initialize` takes any sizes, but only with 2 <= initialSize <= maxSize is the first
  read offered a non-empty buffer within the cap (`LineReader.SizesNeeded`).

## Model

| member | source | states |
|---|---|---|
| `Tags.InitTable` | ircmsg/tags.go:18-28 | The filled table maps 0x3A, 0x73, 0x72, 0x6E to 0x3B, 0x20, 0x0D, 0x0A, and every other byte to itself |
| `Tags.UnescapeTagValue` | ircmsg/tags.go:42-77 | The scan with its no-copy fast paths returns what the byte-at-a-time automaton returns, for every string: unknown escapes keep the byte, a trailing backslash is dropped |
| `Tags.UnescapeMeans` | ircmsg/tags.go:42-77 | A backslash and a byte stand for that table's byte, other bytes for themselves, a lone trailing backslash for nothing |
| `Tags.EscapeMeans` | ircmsg/tags.go:11-36 | Escaping is byte by byte, with the five named pairs |
| `Tags.UnescapeEscape` | ircmsg/tags.go:34-77 | Unescaping is a left inverse of escaping on every value |
| `Tags.EscapeIsSafe` | ircmsg/tags.go:34-36 | Escaped text has no semicolon, space, CR or LF, and a NUL exactly if the value has one |
| `Tags.EscapeKeepsUtf8` | ircmsg/tags.go:34-36 | Escaping keeps UTF-8 valid |
| `Tags.UnescapeKeepsUtf8` | ircmsg/tags.go:42-77 | Unescaping keeps UTF-8 valid, also when a backslash precedes a multi-byte character |
| `Tags.UnescapeMakesNoNul` | ircmsg/tags.go:42-77 | Unescaping introduces no NUL |
| `Tags.ValidateTagName` | ircmsg/tags.go:80-98 | Accepts exactly a non-empty run of letters, digits, `-`, `.`, `/` with at most one `+` in front |
| `Tags.ValidNameIff` | ircmsg/tags.go:80-98 | Valid names are exactly the runs of letters, digits, `-`, `.`, `/`, alone or behind `+` |
| `Tags.NameIsSafe` | ircmsg/tags.go:80-98 | A valid name holds none of the bytes that delimit a tag section or a line |
| `Utf8.DecodeLastRune` | ircmsg/unicode.go:20-21 | The backward decoder reports an error of width at most 1 exactly if no suffix is a well-formed character, and otherwise that character's length |
| `Utf8.RuneIsEncoded` | ircmsg/unicode.go:15-29 | What counts as a character is the encoding of a scalar value by section 3 of RFC 3629 |
| `Utf8.EncodedIsRune` | ircmsg/unicode.go:15-29 | Every such encoding counts as a character, of that length |
| `Utf8.ValidIsEncoded` | ircmsg/tags.go:101-103 | Valid text is the encoding of a sequence of scalar values |
| `Utf8.EncodedIsValid` | ircmsg/tags.go:101-103 | and every such encoding is valid |
| `Utf8.TruncateUTF8Safe` | ircmsg/unicode.go:15-29 | The loop drops up to three bytes, stopping at a whole character; the panic on an empty string is reported |
| `Utf8.TruncateCutsAtBoundary` | ircmsg/unicode.go:15-29 | On valid UTF-8 the cut is at the last character boundary within the limit |
| `Utf8.TruncateValidUtf8` | ircmsg/unicode.go:15-29 | On valid UTF-8 the result is a valid prefix within the limit and no valid prefix within it is longer; it fails exactly if the limit is negative, or below 3 with no whole character within it |
| `Utf8.TruncateAnyBytes` | ircmsg/unicode.go:15-29 | On arbitrary bytes at most three are dropped beyond the limit, stopping at the longest prefix that ends in a character; the exact panic condition |
| `Messages.Message.GetTag` | ircmsg/message.go:85-95 | Looks in the map the name calls for; absent tags give an empty value |
| `Messages.Message.SetTag` | ircmsg/message.go:104-118 | Updates exactly one entry of the map the name calls for, or nothing for an empty name |
| `Messages.TagOfWithTag` | ircmsg/message.go:85-118 | Reading after setting gives the new value for that name and the old one for every other |
| `Messages.TrimInitialSpaces` | ircmsg/message.go:192-197 | The loop removes all leading spaces and nothing else |
| `Messages.CheckAscii` | ircmsg/message.go:199-206 | True exactly if all bytes are at most 127 |
| `Messages.Message.NextTag` | ircmsg/message.go:314-330 | Splits off the first tag at the semicolon and its value at the first equals sign |
| `Messages.Message.ParseTags` | ircmsg/message.go:312-342 | The loop adds tag by tag what the recursive grammar prescribes: invalid names ignored, a non-UTF-8 value under a valid name fatal |
| `Messages.Message.ParseParams` | ircmsg/message.go:289-306 | The loop collects the space-separated parameters and the trailing one |
| `Messages.Message.ParseCommand` | ircmsg/message.go:266-306 | Command, its two errors, upper-casing and parameters |
| `Messages.Message.ParseBody` | ircmsg/message.go:253-306 | Source (an error without a following space), then the command |
| `Messages.ParseRest` | ircmsg/message.go:243-309 | Truncation of the body behind the tags, with its non-fatal error and its panic |
| `Messages.ParseTagged` | ircmsg/message.go:229-242 | Tag section: missing space, oversize and bad content as the three errors |
| `Messages.ParseLine` | ircmsg/message.go:208-309 | The whole parser returns the outcome of the specification function and the message object holds the parsed message |
| `Grammar.ParseIff` | ircmsg/message.go:208-309 | The parser reads a text as a message if and only if its line has the declared form for it: no forbidden byte, tags, runs of spaces, source, word in upper case, parameters |
| `Grammar.ParamsIff` | ircmsg/message.go:289-306 | A text is read as a list of parameters if and only if it is one by declaration |
| `Grammar.BodyIff` | ircmsg/message.go:253-306 | The same for source, command and parameters |
| `Grammar.TagSectionMeans` | ircmsg/message.go:312-342 | A tag section cut at its semicolons is accepted if and only if all validly named values are UTF-8, and each valid name gets the value of its last tag |
| `Grammar.CutAtSemicolons` | ircmsg/message.go:313-322 | Every section can be cut that way |
| `Grammar.TerminatorMeans` | ircmsg/message.go:209-211 | One newline and then one carriage return are removed |
| `Grammar.CommandIsUpper` | ircmsg/message.go:286 | Under every limit the command has no lower-case letter and is, byte by byte, the upper case of a word of the line |
| `Messages.Message.CheckTag` | ircmsg/message.go:408-410 | A tag is acceptable exactly if its name is valid and its value is UTF-8 |
| `Messages.Message.WriteTag` | ircmsg/message.go:411-418 | Appending one tag extends the joined text by exactly that tag |
| `Messages.Message.WriteTags` | ircmsg/message.go:406-421 | Whatever order the map is walked in, the text is the join of an enumeration of that map |
| `Messages.Message.WriteTagSection` | ircmsg/message.go:400-434 | Regular tags before client-only tags; the two charged lengths, with the semicolon between the groups free |
| `Messages.Message.WriteParams` | ircmsg/message.go:452-462 | Fails exactly if a parameter that needs a colon is not last |
| `Messages.Complete` | ircmsg/message.go:464-492 | Truncation loop, CRLF and final validation on the whole buffer |
| `Messages.Message.Line` | ircmsg/message.go:393-493 | The printer returns the specification's outcome for enumerations of both maps, errors in the source's order |
| `PrintedForm.SectionMeans` | ircmsg/message.go:400-434 | The tag section is `@`, the tags with semicolons between them and a space; a tag is its name, and unless its value is empty `=` and the escaped value |
| `PrintedForm.ParamsMean` | ircmsg/message.go:452-462 | Each parameter stands behind a space, the last behind a colon if forced or if it is no plain word, and any other that is no plain word is refused |
| `PrintedForm.ClientLength` | ircmsg/message.go:423-428 | What is charged to the client-only budget is the length of the client-only tags |
| `PrintedForm.RefusedIff` | ircmsg/message.go:393-491 | When each error is reported, first come first |
| `PrintedForm.StrictRefusal` | ircmsg/message.go:372-386 | A strict print is refused as too long exactly above 4096 bytes of section, or 4094 bytes of either kind of tags |
| `PrintedForm.StrictTagLimit` | ircmsg/message.go:183-189 | The strict parser refuses exactly more than 4094 or 8189 bytes of tag data |
| `RoundTrip.TagsRoundTrip` | ircmsg/message.go:312-342 | For every pair of enumeration orders the printed tags parse back to the same two maps |
| `RoundTrip.ParamsRoundTrip` | ircmsg/message.go:289-306 | Printed parameters parse back to the same list, with and without a forced trailing colon |
| `RoundTrip.BodyRoundTrip` | ircmsg/message.go:253-306 | The printed body of a readable message parses back |
| `RoundTrip.BodyReadBack` | ircmsg/message.go:253-306 | Conversely, only readable messages do |
| `RoundTrip.ParseSection` | ircmsg/message.go:229-242 | The parser separates a printed tag section from any body that follows it |
| `RoundTrip.CommandReadAsTags` | ircmsg/message.go:229-242 | A leading command that begins with `@` is never read back |
| `RoundTrip.PrintThenParse` | ircmsg/message.go:208-493 | Encode then decode: for every message the printer accepts and every enumeration order, the line parses to the same source, command, parameters and tag maps if and only if the message is canonical |
| `NormalForm.ParsedLineWell` | ircmsg/message.go:208-342 | A parsed message has valid tag names, UTF-8 values without NUL, clean text, an ASCII command without lower-case letters and printable parameters |
| `NormalForm.PrintGoodMessage` | ircmsg/message.go:393-493 | Such a message prints without error or truncation |
| `NormalForm.ParseThenPrint` | ircmsg/message.go:208-493 | Decode then encode: every line that parses gives a message that prints, and the print parses to the same message if and only if the command cannot be taken for a source or for tags |
| `WireLimits.DropBrokenBehind` | ircmsg/message.go:475-483 | The printer's loop over the whole buffer removes the same bytes as a loop over the body and stops at the tag section |
| `WireLimits.FinishCutsBody` | ircmsg/message.go:464-485 | For limits of 0 or at least 2 the tag section is untouched and the body is cut where TruncateUTF8Safe cuts it; it panics exactly if that would and there is no tag section |
| `WireLimits.SentBodyShape` | ircmsg/message.go:464-485 | The sent body is a prefix that leaves room for CRLF, equal to the body exactly if it fits |
| `WireLimits.TinyLimitCutsTags` | ircmsg/message.go:464-485 | Whatever is emitted under a non-zero limit below 2 is a proper prefix of the tag section |
| `WireLimits.TinyLimitExample` | ircmsg/message.go:464-485 | A concrete message whose line goes out cut inside its tags |
| `WireLimits.EmittedSizes` | ircmsg/message.go:372-485 | Every line of a strict print has at most 4096 bytes of tags from a client or 8191 from a server, and a body of at most the limit with CRLF |
| `WireLimits.StrictParseAccepts` | ircmsg/message.go:183-189 | On every such line the strict parser with the same arguments reports no oversize and does what the unlimited parser does, if and only if the message does not look like tags, a condition on source, tags, command and sent length |
| `WireLimits.MistakenIff` | ircmsg/message.go:229-236 | That condition on the message says exactly which emitted lines the parser takes for an oversized tag section |
| `WireLimits.LongCommandRefused` | ircmsg/message.go:229-236 | A concrete message that a client may print and the strict parser refuses as oversized tags |
| `WireLimits.StrictParseTinyLimit` | ircmsg/message.go:214-219 | Below 3 the strict parser reports an empty line |
| `WireLimits.StrictRoundTrip` | ircmsg/message.go:183-386 | A strict print that was not truncated is read back by the strict parser if and only if the message is canonical |
| `PowerOfTwo.RoundUpIsSmear` | ircreader/ircreader.go:116-125 | The five shift-and-or steps compute the or of 32 successive shifts |
| `PowerOfTwo.RoundUpIsLeastPower` | ircreader/ircreader.go:116-125 | For 1 <= v <= 2^32 the result is a power of two and no smaller power of two is at least v |
| `PowerOfTwo.RoundUpIsPowerIff` | ircreader/ircreader.go:115-125 | For every v the result is a power of two if and only if v - 1 has no 32 zeros in a row below its leading one, and then it is the least that is at least v |
| `PowerOfTwo.RoundUpFirstFailure` | ircreader/ircreader.go:115-125 | The condition holds for every v up to 2^32; for 2^32 + 1 the result is no power of two |
| `PowerOfTwo.RoundUpWrappedIff` | ircreader/ircreader.go:115-125 | On a signed int of w bits and a sign the result is in range, and a power of two if and only if v is at most 2^(w-1) and the condition above holds |
| `LineReader.Conn.Read` | ircreader/ircreader.go:104-105 | A read returns as much of the next event as fits and its error with its last byte, and touches nothing before the slice |
| `LineReader.SizesNeeded` | ircreader/ircreader.go:85-95 | For all sizes, the first read is offered a non-empty buffer within the cap if and only if 2 <= initialSize <= maxSize |
| `LineReader.NewLengthMeans` | ircreader/ircreader.go:85-92 | A new buffer has the least power of two above the old length, at least the initial size and at most the cap |
| `LineReader.Reader.constructor` | ircreader/ircreader.go:46-51 | Any sizes are taken; the initial state meets the invariant for those that work |
| `LineReader.Reader.FindNewline` | ircreader/ircreader.go:60 | Searching only what is new finds the first newline of all pending bytes |
| `LineReader.Reader.TakeLine` | ircreader/ircreader.go:61-71 | A line is returned without its newline and one CR, and accounted as consumed |
| `LineReader.Reader.MakeRoom` | ircreader/ircreader.go:85-103 | Grows exactly if the buffer is below the cap with little room, to that length; the pending bytes survive and the slice handed to Read is not empty |
| `LineReader.Reader.Fill` | ircreader/ircreader.go:85-111 | One read keeps the invariant and makes progress unless the stream ended |
| `LineReader.Reader.ReadLine` | ircreader/ircreader.go:57-113 | Cursor and buffer bounds hold on every exit; a line is the stretch to the next newline less one CR; errors consume nothing; ErrReadQ means exactly a full buffer of maximal size without newline; an error of the connection is passed on as it came |
| `LineReader.Reader.Ledger` | ircreader/ircreader.go:57-113 | In every state: consumed lines with terminators plus pending bytes equal all bytes ever read, and pending bytes never exceed the cap |
| `LineReader.Advance` | ircreader/ircreader.go:57-113 | One ReadLine seen from the whole stream splits off the next raw line |
| `LineReader.ReadAll` | ircevent/irc.go:152-171 | For every chunking and every error pattern the lines read are the newline-split lines of the consumed bytes and nothing is lost; without early errors the outcome is a function of the byte stream alone |
| `LineReader.SessionReadsLines` | ircreader/ircreader.go:57-113 | That function returns the newline-split lines of the stream in order, all of them unless one exceeds the cap |
| `Base64.DecodeEncode` | ircutils/sasl.go:92 | Decoding undoes encoding for every byte string |
| `Base64.EncodeCut` | ircutils/sasl.go:26-36 | The text may be cut at any multiple of four characters |
| `Base64.QuadIsNumber` | ircutils/sasl.go:26 | Four characters are the base-64 digits of the number three bytes spell in base 256 |
| `Base64.DecodableIff` | ircutils/sasl.go:92 | Text decodes if and only if it is groups of four alphabet characters with at most two `=` at the end |
| `Base64.Rfc4648Vectors` | ircutils/sasl.go:26 | The seven vectors of section 10 of RFC 4648 |
| `Sasl.EncodeSASLResponse` | ircutils/sasl.go:15-44 | The loop yields the 400-byte pieces of the base64 text, and a final `+` exactly if the text is empty or a multiple of 400 |
| `Sasl.ResponseCount` | ircutils/sasl.go:22-43 | The number of chunks is the base64 length divided by 400, plus 1, each of 1 to 400 bytes |
| `Sasl.ResponseSpells` | ircutils/sasl.go:22-43 | All chunks but the last have 400 bytes, the last fewer, and up to a final `+` for an empty last chunk they spell the base64 text |
| `Sasl.SASLBuffer.Clear` | ircutils/sasl.go:108-111 | Empties the buffer |
| `Sasl.SASLBuffer.Add` | ircutils/sasl.go:70-105 | The three errors and both kinds of completion; every finished outcome leaves the buffer empty |
| `Sasl.AddedCases` | ircutils/sasl.go:70-105 | Each outcome by the bytes of the chunk: `+`, more than 400, over the limit, not base64, full, and short |
| `Sasl.SASLBuffer.AddAll` | ircutils/sasl.go:70-105 | Feeding chunks one by one stops at the first outcome that is not "more" |
| `Sasl.FeedResponse` | ircutils/sasl.go:15-105 | On top of any buffered bytes a response that fits completes with its last chunk and no earlier, and one that does not reports the limit |
| `Sasl.SaslRoundTrip` | ircutils/sasl.go:15-105 | For every byte string and limit the original bytes come back, at the last chunk, if and only if there is no limit, the string is empty, or its length rounded up to a multiple of 3 is within the limit |
| `Formatting.Split` | ircfmt/ircfmt.go:83-138 | The loop yields the chunks of the recursive scan |
| `Formatting.CodesMean` | ircfmt/ircfmt.go:101-117 | From every style, 0x02, 0x11, 0x16, 0x1D, 0x1E and 0x1F negate one attribute each and nothing else, and 0x0F unsets everything |
| `Formatting.SwitchOnAndOff` | ircfmt/ircfmt.go:101-117 | A switch, a text, the same switch and another text give the first one switched and the second one plain |
| `Formatting.RunColour` | ircfmt/ircfmt.go:120-133 | The two look-ahead patterns read a colour code as the look-ahead-free machine does |
| `Formatting.SplitRefinesMachine` | ircfmt/ircfmt.go:83-138 | Every visible byte of every text gets the formatting the byte-by-byte machine gives it, which has its own definition of every code |
| `Formatting.SplitIsClean` | ircfmt/ircfmt.go:83-138 | No chunk is empty or holds a control code |
| `Formatting.Strip` | ircfmt/ircfmt.go:293-307 | Strip with its shortcuts concatenates the contents of the chunks |
| `Formatting.StripIsVisibleText` | ircfmt/ircfmt.go:293-307 | Strip returns exactly the bytes the machine shows |
| `Formatting.StripIdempotent` | ircfmt/ircfmt.go:293-307 | The result has no control code and stripping it again changes nothing |
| `ColourEscapes.Unescape` | ircfmt/ircfmt.go:340-397 | The loop replaces escape by escape |
| `ColourEscapes.UnescapedMeans` | ircfmt/ircfmt.go:344-394 | Every escape by its letter, unknown ones and a final dollar included, and when `$c` has no bracket |
| `ColourEscapes.UnknownForeground` | ircfmt/ircfmt.go:370-384 | An unknown foreground leaves the colour byte alone, whatever the background |
| `ColourEscapes.ResolveLoosely` | ircfmt/ircfmt.go:310-316 | White space around a name does not matter, and one or two digits are their own code |
| `ColourEscapes.LowerOfCased` | ircfmt/ircfmt.go:311 | Capital letters count as small ones |
| `ColourEscapes.UnescapeNext` | ircfmt/ircfmt.go:344-394 | One round: what the front of the input turns into and how much of it is used up |
| `ColourEscapes.WriteCode` | ircfmt/ircfmt.go:371-384 | Codes are padded exactly where the last one has one digit and a digit follows |
| `ColourEscapes.ForegroundReadBack` | ircfmt/ircfmt.go:340-397 | A resolvable foreground and any clean text, digits included, come back from Split as one chunk with that colour if and only if the text does not start with a comma and a digit |
| `ColourEscapes.BothColoursReadBack` | ircfmt/doc.go:47-57 | With a background they always do |
| `ColourEscapes.KnownNameResolves` | ircfmt/ircfmt.go:188-208 | Every name of the table resolves to its code and meets the conditions above |
| `ColourEscapes.CodesMatchDocumentation` | ircfmt/doc.go:59-81 | The known names are exactly the documented ones, and the code of each is read back as its number |
| `ColourEscapes.LetterEscapes` | ircfmt/doc.go:18-31 | Each letter escape formats the text behind it as documented |
| `LabelText.LabelRoundTrip` | ircevent/irc_callback.go:704-713 | Base-32 text of every 64-bit label parses back to it |
| `LabelText.LabelsDistinct` | ircevent/irc_callback.go:704-713 | Different labels have different texts |
| `LabelText.SerializeMeans` | ircevent/irc_callback.go:704-706 | The text is the sign and the base-32 digits, most significant first, from `0` to `v` |
| `LabelText.UnreadableIsZero` | ircevent/irc_callback.go:708-713 | Text with a byte that is no digit is 0 |
| `LabelText.OutOfRangeIsZero` | ircevent/irc_callback.go:708-713 | A number beyond 64 bits is 0, and a plus sign changes nothing |
| `Batches.BatchTable.HandleBatchCommand` | ircevent/irc_callback.go:197-260 | The handler changes the tables of batches and of label callbacks as the step function does and reports its outcome, malformed commands included |
| `Batches.StartIff` | ircevent/irc_callback.go:198-214 | A message starts a batch if and only if it is a BATCH with `+` and an id first, whatever follows; parent and label come from its tags |
| `Batches.CloseIff` | ircevent/irc_callback.go:198-209 | It closes one if and only if it is a BATCH with `-` and an id first; nested exactly with a batch tag |
| `Batches.OthersIff` | ircevent/irc_callback.go:198-207 | When a BATCH is malformed, and which other commands belong to a batch |
| `Batches.StepCases` | ircevent/irc_callback.go:217-258 | What each event changes and what is logged |
| `Batches.BatchTable.StartBatch` | ircevent/irc_callback.go:221-240 | A start: duplicate ID, unknown parent (the batch stays open), link below the parent |
| `Batches.BatchTable.CloseBatch` | ircevent/irc_callback.go:241-258 | A close in one section over both tables: unknown ID, removal, and, exactly without a batch tag, delivery to the callback of its label, to the handlers if unlabeled, or to nobody if the label is unknown; that label leaves its table |
| `Batches.BatchTable.HandleBatchedCommand` | ircevent/irc_callback.go:315-325 | A line is appended to its open batch or ignored |
| `Batches.BatchTable.ExpireBatches` | ircevent/irc_callback.go:675-679 | Exactly the batches older than KeepAlive leave the table |
| `Batches.BatchTable.Expire` | ircevent/irc_callback.go:656-680 | One section over both tables: exactly the stale batches and the stale labels (all under force) leave, and their callbacks are returned |
| `Batches.StepKeepsForest` | ircevent/irc_callback.go:217-260 | Every message that is not a self-parented start keeps the nodes an acyclic forest with single parents and childless lines |
| `Batches.SelfParentCycle` | ircevent/irc_callback.go:228-239 | A self-parented start keeps it exactly if its ID is already open; otherwise the node becomes its own item |
| `Batches.ExpiredKeepsForest` | ircevent/irc_callback.go:675-679 | Expiry of any batches keeps the forest |
| `Batches.RunsKeepForest` | ircevent/irc_callback.go:197-325 | The forest invariant holds after every sequence of messages and expiries without self-parented starts |
| `BatchTrees.HandleBatchNaively` | ircevent/irc_callback.go:306-313 | The recursion terminates on every forest and handles the lines of the walk in order |
| `BatchTrees.LinesMean` | ircevent/irc_callback.go:307-309 | Of the visited nodes exactly the messages whose command is not BATCH are handled |
| `BatchTrees.WalkEnds` | ircevent/irc_callback.go:306-313 | On every forest the unguarded recursion ends, no deeper than there are nodes |
| `BatchTrees.SelfParentNeverEnds` | ircevent/irc_callback.go:306-313 | After a self-parented start of an ID that is not open it does not end at any depth |
| `BatchTrees.VisitOnce` | ircevent/irc_callback.go:306-313 | A walk of a forest meets no node twice |
| `BatchTrees.FlatteningVisitsOnce` | ircevent/irc_callback.go:306-325 | In every reachable table, flattening any node meets no node twice |
| `BatchStreams.TableMatches` | ircevent/irc_callback.go:197-325 | After every prefix of every stream the nodes and the open batches are those an account of the stream alone prescribes |
| `BatchStreams.AgeOfStart` | ircevent/irc_callback.go:675-679 | At every time a sweep takes exactly the open batches whose starts arrived more than KeepAlive before |
| `BatchStreams.TreeMatches` | ircevent/irc_struct.go:132-147 | The tree below a node is the tree the stream describes |
| `BatchStreams.DeliveredTree` | ircevent/irc_callback.go:197-269 | A message hands out a batch if and only if it is an untagged close of an open ID whose start had no label or one that is pending; the tree holds exactly the lines and sub-batches tagged with each ID, in arrival order, and goes to the callback of that label; an unknown label is logged instead |
| `BatchOrder.ClosedInConforming` | ircevent/irc_callback.go:241-258 | If inner batches close first, everything in a closed batch is closed |
| `BatchOrder.DescribedFrozen` | ircevent/irc_callback.go:315-325 | A tree whose batches are all closed never changes |
| `BatchOrder.DeliveredTreeIsFinal` | ircevent/irc_callback.go:241-269 | In a conforming stream, after any later traffic the tree below the delivered node is the one that was delivered |
| `BatchOrder.DescriptionIsFinal` | ircevent/irc_callback.go:241-258 | The same of the stream's own description of that tree |
| `BatchOrder.PreorderAscending` | ircevent/irc_callback.go:306-313 | If items always go to an innermost open batch, the walk is in arrival order |
| `BatchOrder.FlattenedInArrivalOrder` | ircevent/irc_callback.go:306-325 | Under the same condition, flattening a delivered batch handles its lines in arrival order |
| `BatchDelivery.DeliversIsFinished` | ircevent/irc_callback.go:241-269 | The deliveries counted below are the batches the table hands out |
| `BatchDelivery.DeliveredByTop` | ircevent/irc_callback.go:241-269 | In a stream whose inner batches close first and whose tags are right, a message hands out a given line or batch if and only if it closes the outermost batch around it and that batch is unlabeled or its label pending |
| `BatchDelivery.DeliveredExactlyOnce` | ircevent/irc_callback.go:197-325 | In such a stream, for any labels pending at each message, every line and batch has been handed out exactly once if its outermost batch has been closed while unlabeled or its label pending, and not at all otherwise |
| `BatchDelivery.UnlabeledExactlyOnce` | ircevent/irc_callback.go:197-325 | Without a label: once if the outermost batch is closed, and not at all before |
| `BatchDelivery.WrongTagMiscounts` | ircevent/irc_callback.go:241-258 | Any wanted close with the wrong tag makes the count of its own batch wrong at that close |
| `BatchDelivery.ExactlyOnceIffTagsRight` | ircevent/irc_callback.go:197-325 | In a stream whose inner batches close first, exactly-once delivery holds for all messages at all times if and only if the tags of all wanted closes are right |
| `BatchDelivery.UnclaimedBatchIsDropped` | ircevent/irc_callback.go:246-263 | A concrete labeled batch without a pending callback: its close is logged and its line never handed out |
| `BatchDelivery.UntaggedInnerCloseDeliversTwice` | ircevent/irc_callback.go:241-258 | Whenever an inner batch and later its parent are closed without the tag and both are wanted, everything in the inner one is handed out at least twice |
| `BatchDelivery.UntaggedStreamDeliversTwice` | ircevent/irc_callback.go:241-258 | A concrete stream in which that happens |
| `BatchDelivery.SelfParentExample` | ircevent/irc_callback.go:228-239 | A concrete self-parented start whose node flattening never leaves |
| `Labels.LabelTable.RegisterLabel` | ircevent/irc_callback.go:630-640 | A fresh label is added and its text returned |
| `Labels.LabelTable.UnregisterLabel` | ircevent/irc_callback.go:642-650 | Removes the label the text stands for, nothing for text that is no label |
| `Labels.LabelTable.GetLabelCallback` | ircevent/irc_callback.go:271-283 | Looking a label up takes its entry out |
| `Labels.LabelTable.RouteFinished` | ircevent/irc_callback.go:246-268 | An unlabeled batch goes to the handlers, a labeled one to its callback, and one whose label is unknown nowhere |
| `Labels.LabelTable.ExpireLabels` | ircevent/irc_callback.go:656-673 | Exactly the stale labels (all under force) leave the table, each callback collected once, in any order |
| `Labels.CollectedOnce` | ircevent/irc_callback.go:658-673 | The collected callbacks are, as a multiset, those of the removed entries |
| `Labels.LinkedStep` | ircevent/irc_callback.go:630-680 | Every step keeps table entries tied to their senders under distinct labels |
| `Labels.ConservedStep` | ircevent/irc_callback.go:271-283 | Every step keeps each callback in exactly one place: pending, taken, or called |
| `Labels.DrainedStep` | ircevent/irc.go:315-324 | After the drain only unsent calls are in the table |
| `Labels.RunInv` | ircevent/irc.go:345-410 | The three invariants hold in every reachable state |
| `Labels.PendingSince` | ircevent/irc_callback.go:630-640 | In every run a pending label is the number of the call that registered it, with that call's callback and time |
| `Labels.CallbacksExactlyOnce` | ircevent/irc.go:315-410 | In every interleaving of senders, replies, expiry and shutdown no callback is called twice, and after waitForStop the callback of every call that returned nil has been called exactly once |
| `Labels.LabelsAreDistinct` | ircevent/irc_callback.go:630-640 | Labels of different calls are distinct as numbers and as texts, non-zero, and survive the trip through text |
| `Labels.FailedSendMayFire` | ircevent/irc.go:396-410 | A concrete interleaving in which a failed call's callback is called |
| `Labels.FailedSendFiresIff` | ircevent/irc.go:396-410 | In every interleaving a failed call's callback has been called by the end of waitForStop if and only if its label had left the table before unregisterLabel |
| `Labels.FailedSendFiresBySchedule` | ircevent/irc.go:396-410 | The same read off the schedule: if and only if a drain, an expiry of its label or a reply to it occurs between registration and removal, the label being the number of calls begun |
| `Caps.Negotiation.Send` | ircevent/irc_callback.go:571-574 | A non-blocking send into a bounded channel |
| `Caps.Negotiation.HandleCAP` | ircevent/irc_callback.go:555-578 | LS, ACK and NAK by name with at least three parameters; everything else is ignored |
| `Caps.Negotiation.HandleLS` | ircevent/irc_callback.go:580-626 | Tokens are recorded; on the final line the requests are split into offered and missing, in order; after registration nothing happens |
| `Caps.AdvertisedIff` | ircevent/irc_callback.go:612-615 | A name is advertised if and only if it was before or some token is it, alone or with `=` and a value; the last such token gives the value |
| `Caps.OfferedMeans` | ircevent/irc_callback.go:617-625 | In request order, the requests the server offers, and the others |
| `Caps.FieldsMean` | ircevent/irc_callback.go:612 | The fields of a text are its words |
| `Utf8.SpaceLenMeans` | ircevent/irc_callback.go:612 | White space is the encoding of a code point with that property |
| `Caps.ResultsMean` | ircevent/irc_callback.go:567-576 | One result for each token whose name was requested, in order |
| `Caps.Negotiation.ReportMissing` | ircevent/irc_callback.go:586-591 | One negative result per missing capability |
| `Caps.Negotiation.HandleAnswer` | ircevent/irc_callback.go:555-578 | One result per requested token of an ACK or NAK |
| `Caps.ReportIsSteps` | ircevent/irc_callback.go:586-591 | The deferred sends are the SendMissing steps of the protocol |
| `Caps.AnswerIsSteps` | ircevent/irc_callback.go:567-576 | The sends of one answer line are the Answer steps of its tokens |
| `Caps.StepKeeps` | ircevent/irc_callback.go:555-626 | Every step keeps each request in exactly one place and drops no send |
| `Caps.Counting` | ircevent/irc.go:705 | Received, queued, unreported and outstanding add up to the number of requests |
| `Caps.NegotiationCounts` | ircevent/irc.go:780-797 | In every run against a server that answers each request once: the count is kept, no send is dropped, and when the loop ends every request has had one result and the acknowledged capabilities are exactly those the server acknowledged |
| `Caps.NegotiationProgress` | ircevent/irc.go:780-797 | While results are missing, one is queued or the server owes an answer |
| `Caps.SplitOfListIrrelevant` | ircevent/irc_callback.go:603-625 | However the LS reply is split into lines, the outcome is that of one line |
| `Caps.ProcessAckedCaps` | ircevent/irc_struct.go:156-189 | The acknowledged map and the four feature flags, each as an if-and-only-if |
| `Caps.CapNames` | ircevent/irc_struct.go:163-172 | The names behind the flags |
| `Lifecycle.Connection.CloseEndNoMutex` | ircevent/irc.go:561-566 | Closes the current end channel exactly if running |
| `Lifecycle.Connection.SetError` | ircevent/irc.go:68-75 | The first error is recorded and ends the connection, later ones change nothing |
| `Configuration.Configure` | ircevent/irc.go:626-673 | The defaults are filled in up to the first error, and that error |
| `Configuration.AcceptedIff` | ircevent/irc.go:626-673 | Settings are accepted if and only if there is a server, Timeout is at most KeepAlive after defaults and the mechanism is known; accepted settings are complete, request SASL if it is used, and keep all requested capabilities |
| `Configuration.SettingsMean` | ircevent/irc.go:629-670 | What was given is kept, and everything else is the documented default |
| `Configuration.ErrorsIff` | ircevent/irc.go:626-664 | Which error is reported when |
| `Configuration.ConfigureSettles` | ircevent/irc.go:626-673 | Completing completed settings changes nothing and gives the same verdict, so a reconnect cannot fail on them |
| `Configuration.PingModulusPositive` | ircevent/irc.go:236-237 | With accepted settings and a positive Timeout, processTick never divides by zero |
| `Lifecycle.Connection.EnterConnect` | ircevent/irc.go:611-677 | Refuses after Quit and then changes nothing; otherwise resets the state, forgets the socket, completes the settings and reports their error |
| `Lifecycle.Connection.Establish` | ircevent/irc.go:698-702 | Marks the connection running with a new open end channel and socket |
| `Lifecycle.Connection.CloseSocket` | ircevent/irc.go:319-321 | waitForStop closes the socket the client knows |
| `Lifecycle.Connection.Quit` | ircevent/irc.go:328-343 | Records that and when the client quit |
| `Lifecycle.Connection.ProcessTick` | ircevent/irc.go:206-245 | Fails exactly on a QUIT ignored for Timeout or an unanswered PING; otherwise pings at the multiples of KeepAlive / Timeout, and then renames if need be |
| `Lifecycle.OnePingPerPeriod` | ircevent/irc.go:236-239 | Of any KeepAlive / Timeout successive ticks a ping is due at exactly one |
| `Lifecycle.GuardNeedsStopped` | ircevent/irc.go:619-624 | The guard keeps channels and flag consistent exactly if the connection is stopped |
| `Lifecycle.StepKeeps` | ircevent/irc.go:555-731 | Every step of the client, the four goroutines and the environment keeps the lifecycle invariant |
| `Lifecycle.LifecycleSafety` | ircevent/irc.go:555-731 | In every interleaving `running` holds exactly while the current end channel is open, no end channel is closed twice, and a recorded error implies not running |
| `Lifecycle.SetErrorStops` | ircevent/irc.go:68-75 | Every setError leaves the end channel closed |
| `Lifecycle.FailedConnectStops` | ircevent/irc.go:606-731 | Whenever Connect returns an error the three goroutines it waits for are gone, nothing is running and every end channel is closed |
| `FailedConnect.FailedConnectSockets` | ircevent/irc.go:606-731 | After every failed Connect all sockets are closed if and only if no Connect was called, before any Quit, between a success and the end of waitForStop, and no such success is outstanding now |
| `FailedConnect.ForgottenSocket` | ircevent/irc.go:618-624 | A concrete run in which a second Connect fails and leaves the first readMsgLoop blocked on an open socket |
| `FailedConnect.MsgLoopOutlivesConnect` | ircevent/irc.go:110-171 | A concrete run in which readMsgLoop is alive when Connect returns its error |
| `FailedConnect.AbandonedRun` | ircevent/irc.go:152-171 | A readMsgLoop whose own end channel is closed and whose readLoop is gone takes, in every run, only steps on its way out, and exactly as many as it has left |
| `FailedConnect.LeftoverOnlyLeaves` | ircevent/irc.go:152-171 | A readMsgLoop alive after a failed Connect has its own end channel closed and, under the condition above, its socket closed so that it cannot block; in every continuation it takes at most two steps, which lead to its exit and can always be taken |
| `QuitAndLoop.NoNewConnections` | ircevent/irc.go:611-617 | After Quit at most the one attempt already past the guard becomes a connection |
| `QuitAndLoop.QuitIsFinal` | ircevent/irc.go:328-343 | Once quit and neither running nor dialing, the client never runs again |
| `QuitAndLoop.LateTickEndsConnection` | ircevent/irc.go:206-230 | A tick at least Timeout after the latest Quit ends the connection for good, whatever happens in between |
| `QuitAndLoop.LoopWindsDown` | ircevent/irc.go:277-310 | After Quit a Loop, wherever it stands, takes at most five more control steps in every run up to the client's next call |
| `QuitAndLoop.NextCallAfterReturn` | ircevent/irc.go:277-284 | That next call is possible only once Loop has returned |
| `QuitAndLoop.LoopCanReturnIff` | ircevent/irc.go:277-324 | In every reachable state after Quit: if a connection was ever set up, a schedule of steps of the client's own goroutines and timers makes Loop return; if none was, no schedule does |
| `QuitAndLoop.FailedReconnectStopsAtOnce` | ircevent/irc.go:305-309 | After every failed reconnect the stop check passes at once |
| `QuitAndLoop.StopCheckIff` | ircevent/irc.go:315-324 | In every run, a Loop waiting on a stopped connection without goroutines passes its stop check if and only if some Connect set up a connection |
| `QuitAndLoop.LoopWithoutConnectionHangs` | ircevent/irc.go:315-316 | A Loop entered before any connection was set up waits for ever |
| `QuitAndLoop.HangIsReachable` | ircevent/irc.go:315-316 | A failed first Connect followed by Loop leads there |

## Left out

- The partly filled message that the parser returns beside an error is not described; only the error is.
- DeleteTag, UpdateTags, AllTags, MakeMessage, ParseNUH, Nick and similar accessors: easy members next to the codec.
- Whether an absent Go map and an empty one differ: they are the same value here, as for every reader of the maps.
- Messages.ParseLine: upper-casing is modelled on ASCII only, which is all that reaches it.
- LineReader.Reader.ReadLine: the returned line is a value, so that it aliases the buffer until the next call is not captured; it is described for readers with 2 <= initialSize <= maxSize, outside which the buffer rules fail at the first read.
- PowerOfTwo.RoundUpIsPowerIff: on unbounded integers; the overflow of Go's int is in RoundUpWrappedIff.
- Sasl.SASLBuffer.Add: the offset inside Go's CorruptInputError is not modelled.
- ircfmt.Escape, which normalises colour spellings and is no inverse of Unescape.
- The timeouts of capability negotiation and registration appear only as a nondeterministic failure of Connect; the SASL phase of negotiation and the sending of REQ lines are not modelled.
- Labels.CallbacksExactlyOnce: about one connection and fewer than 2^63 - 1 labels; a call registered before and sent after a reconnect is outside, because Connect replaces the label table.
- BatchStreams.DeliveredTree: streams without expiry, since an expired batch loses its later lines; the forest theorem covers expiry.
- Callback registries, runCallbacks dispatch and batch handlers, CTCP, ISUPPORT, nick handling, reply targets, numerics: shallow branching.
- Panics raised by user callbacks, and callbacks that re-enter the connection.
- Dialing, TLS, deadlines and logging; what a socket carries is data or a nondeterministic event.
- Lifecycle.LifecycleSafety: Connect is called only while stopped, and Connect and Loop share one client goroutine, as the comment on waitForStop demands.
- Configuration.Configure: the default logger and the creation of `reconnSig` are not modelled.
