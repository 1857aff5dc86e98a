# Verified model of the Komari agent's codecs, parsers and upload protocol

The agent carries its own compression, WebSocket framing, JSON handling and file upload protocol.
This Dafny project models them and proves what each promises, over all inputs, all runs and all
ways the outside world can cut them up.

- **DEFLATE** (`Bits`, `BitStreams`, `Huffman`, `CanonicalCode`, `DeflateTables`, `Inflate`,
  `InflateProps`, `Deflate`, `DeflateRoundTrip`, `Permessage`). The bit writer and reader are classes
  proved against bit sequences; canonical Huffman decoding is proved right for every length table; the
  decoder and the hash-chain encoder are loops proved against a token semantics; and the two meet in
  one theorem: inflate undoes deflate, for every byte string.
- **Streams of any encoder** (`DynamicHeaders`, `DynamicBlocks`, `StreamsSound`, `SyncFlush`). A writer
  that spells the format out on its own, dynamic headers in every run-length spelling included: the
  decoder accepts exactly what it can write, and gives back what it stands for. A peer's compressed
  message, which ends in a sync flush instead of a final block, decodes to what was compressed.
- **WebSocket frames** (`WsFrames`, `WsReader`, `WsReassembly`). A pure parser of complete byte strings
  is the specification. The resumable reader, over a transport that may split, delay or interrupt
  anywhere, refines it; a whole run delivers the messages of the concatenated bytes. Frames spelled
  byte by byte, in any fragments, come out as the messages that were cut up.
- **JSON** (`Utf8`, `Utf8Bits`, `JsonStrings`, `JsonEscapes`, `JsonNumbers`, `JsonGrammar`, `JsonDepth`,
  `JsonScan`, `JsonText`, `Envelope`, `Settings`, `SettingsAgree`, `SettingValues`, `WireNames`).
  Documents are concrete syntax trees with a printer; the validator accepts exactly the printed trees
  within its bounds. The field lookup, the request builders and an independent tokenizer and parser
  are proved against the same trees.
- **Chunked uploads** (`UploadPlan`, `Upload`, `UploadEffects`, `UploadRuns`, `UploadServer`). A state
  machine over sessions, tombstones and files; the class handles requests as the machine says; what
  each request asks for and leaves behind, what holds over every run, and exactly when every run
  commits what was recorded, are theorems about it.
- **Event intake** (`Events`, `EventIds`), **CRC-32** (`Crc32`), **Base64** (`Base64`), **the calendar**
  (`Calendar`) and **the traffic counter file** (`CounterFile`).

Where a loop of the source changes state, there is a method or class here with the same steps, proved
against a specification function; the theorems are lemmas about those functions. Helper methods and
lemmas have no row below.

One property the source's design aims at does not hold of every run: a client may name the stage file
of one upload as the target of another, and committing the other then replaces bytes already recorded
(`UploadRuns.StageTargetsInterfere`). `UploadRuns.CompleteUnlessClashing` gives the exact condition: a
set of uploads is safe in every run if and only if none of them targets the stage file of another.

Nothing here was executed: all claims are checked by the Dafny verifier alone.

## Model

| member | source | states |
|---|---|---|
| `BitStreams.BitWriter.Put` | src/gzip.rs:127-135 | Appends the `len` low bits of the value, least significant first, to the bit sequence written so far, wherever the byte boundary falls. |
| `BitStreams.BitWriter.PutMsb` | src/gzip.rs:142-150 | Appends the code's bits most significant first: the order section 3.1.1 of RFC 1951 asks for Huffman codes. |
| `BitStreams.BitWriter.Flush` | src/gzip.rs:161-167 | Fills the current byte up with zero bits and adds none at a byte boundary. |
| `BitStreams.BitWriter.Finish` | src/gzip.rs:169-172 | The bytes returned are the bits written, followed by fewer than eight zero bits. |
| `BitStreams.BitReader.Read` | src/inflate.rs:67-80 | Returns the next `n` bits of the stream as a number and consumes exactly those; UnexpectedEof exactly when fewer are left. |
| `BitStreams.BitReader.AlignByte` | src/inflate.rs:82-86 | Drops exactly the bits up to the next byte boundary. |
| `BitStreams.BitReader.ReadBit` | src/inflate.rs:91-103 | Returns and consumes the next bit; UnexpectedEof exactly at the end. |
| `Bits.PackUnique` | src/gzip.rs:161-172 | A bit sequence has one packing into bytes with zero padding, so the writer's output is determined by its bits. |
| `Huffman.KraftIsUsed` | src/inflate.rs:150-166 | The running count of code space equals the Kraft sum of the lengths: the bridge from the loop's test to the theorem on trees. |
| `Huffman.CheckSpace` | src/inflate.rs:150-166 | Reports overflow exactly when the Kraft sum of the length counts exceeds the code space. |
| `Huffman.OverIsKraft` | src/inflate.rs:150-166 | A level whose codes no longer fit forces the whole Kraft sum above 1. |
| `Huffman.Build` | src/inflate.rs:141-184 | For every length table: InvalidData exactly when a length is above 15, BadCode exactly when the Kraft sum exceeds 1, otherwise a table that represents the canonical code. |
| `Huffman.SlotInjective` | src/inflate.rs:168-183 | The counting sort gives different symbols different places. |
| `Huffman.SortSymbols` | src/inflate.rs:168-183 | Every symbol with a code ends at its place: by length, then by number. |
| `Huffman.PrefixFree` | src/inflate.rs:187-207 | No code of section 3.2.2 of RFC 1951 is a prefix of another symbol's code. |
| `CanonicalCode.NextCodeInOrder` | src/inflate.rs:141-166 | The codes are handed out as section 3.2.2 of RFC 1951 says: with the symbols ordered by code length and then by number, each code is the one after its predecessor's, filled up with zeros to its own length. |
| `CanonicalCode.FirstCodeIsZero` | src/inflate.rs:141-166 | The first symbol in that order has the code of all zeros. |
| `Huffman.DecodeCode` | src/inflate.rs:187-207 | For every accepted table, decoding a symbol's code followed by anything returns that symbol and leaves exactly what followed. |
| `Huffman.DecodeReadsCode` | src/inflate.rs:187-207 | Whatever is decoded, the bits consumed were the canonical code of the symbol returned. |
| `Huffman.Decode` | src/inflate.rs:187-207 | The bit-by-bit loop over counts and offsets agrees with the code's definition, on success, on end of input and on bits that are no code. |
| `DeflateTables.FixedCode` | src/gzip.rs:41-72 | The table of fixed literal and length codes is the canonical code of the fixed lengths (section 3.2.6 of RFC 1951). |
| `DeflateTables.FixedSpace` | src/inflate.rs:212-225 | The fixed literal table fills the code space exactly (its Kraft sum is 1), is accepted by the builder, and has the first codes of section 3.2.6 of RFC 1951. |
| `DeflateTables.FixedDistCode` | src/gzip.rs:102-109 | The five-bit distance codes are the canonical code of thirty lengths of five. |
| `DeflateTables.LengthSplits` | src/gzip.rs:74-100 | Every match length lies in the interval of the symbol chosen for it, so what its extra bits carry fits them. |
| `DeflateTables.DistanceSplits` | src/gzip.rs:83-109 | Every distance up to 32768 lies in the interval of the symbol chosen for it. |
| `DeflateTables.FindSymbol` | src/gzip.rs:93-109 | The downward scan finds the last table entry that is not above the value. |
| `Inflate.CopyBack` | src/inflate.rs:303-315 | A copy whose source overlaps its target yields the periodic extension of the last `distance` bytes. |
| `Inflate.DecodeStored` | src/inflate.rs:236-259 | A stored block copies exactly the announced bytes after realigning; wrong complement, end of input and the output cap give their own errors. |
| `Inflate.DecodeHuffmanBlock` | src/inflate.rs:263-319 | The block loop computes the token semantics of a Huffman block: literals, back-references, end of block, and each error with the output made so far. |
| `Inflate.ReadCodeLengths` | src/inflate.rs:347-383 | The run-length loop yields the code lengths section 3.2.7 of RFC 1951 describes, or InvalidData for a run with nothing to repeat or past the end. |
| `Inflate.BuildDynamic` | src/inflate.rs:322-386 | A dynamic header yields exactly the two tables it spells, or the first error in reading order. |
| `Inflate.DecodeBlock` | src/inflate.rs:397-415 | Each block type leads to its decoder; type 3 is InvalidData. |
| `Inflate.InflateRaw` | src/inflate.rs:392-419 | For every input and every starting output, the decoder terminates with the result and the output of the block semantics over the input's bits. |
| `InflateProps.BlocksGrow` | src/inflate.rs:42-42 | On success and on failure alike, output is only appended, and a run that starts within 1 MiB never leaves it. |
| `InflateProps.BlocksExtend` | src/inflate.rs:392-419 | A stream that decodes is decoded the same whatever follows it, and all of what follows is left over. |
| `InflateProps.TrailerHarmless` | src/inflate.rs:392-419 | Appending any bytes after a complete stream changes nothing in the result. |
| `DynamicHeaders.HeaderRoundTrip` | src/inflate.rs:322-386 | For every pair of tables and every run-length spelling of their lengths (a length, 3 to 6 copies of the last, 3 to 10 or 11 to 138 zeros), written with the widths, least counts and order of section 3.2.7 of RFC 1951: the header is read back as the two tables, and what follows it is left. |
| `DynamicHeaders.HeaderSound` | src/inflate.rs:322-386 | The other direction: every header the decoder accepts is one of these spellings of the tables it returns. |
| `DynamicBlocks.LengthTable` | src/inflate.rs:106-112 | The least lengths and extra bits of the 29 length codes follow the rule: one more bit every four codes, each code starting where the one before it stops, and the last for 258 alone. |
| `DynamicBlocks.DistanceTable` | src/inflate.rs:113-121 | The least distances and extra bits of the 30 distance codes follow the rule: one more bit every two codes. |
| `DynamicBlocks.ItemsRead` | src/inflate.rs:263-319 | Bytes and matches, written in the codes of any two tables with a code for each of them, are read back as what they stand for, matches copied byte by byte. |
| `DynamicBlocks.StoredReads` | src/inflate.rs:236-259 | A stored block, its length and complement spelled byte by byte, is read behind any padding to the byte boundary. |
| `DynamicBlocks.DynamicReads` | src/inflate.rs:322-415 | A dynamic block of any items, in any tables, in any spelling of the tables, decodes to what they stand for. |
| `DynamicBlocks.AnyStreamDecodes` | src/inflate.rs:392-419 | Whatever stored, fixed and dynamic blocks an encoder writes, in any order and up to 1 MiB in all, the decoder gives back the bytes they stand for. |
| `StreamsSound.StreamIs` | src/inflate.rs:392-419 | Whatever inflates was written by blocks of the format, the last of them marked final, and came out as what they stand for. |
| `StreamsSound.InflatesExactly` | src/inflate.rs:392-419 | The decoder succeeds with a text exactly when the text is at most 1 MiB and the bits are blocks of the format that stand for it: nothing allowed is refused and nothing else is taken. |
| `Deflate.MLenIsRun` | src/gzip.rs:188-195 | The match length is the longest common run, cut at 258 and at the end of the input. |
| `Deflate.SearchSound` | src/gzip.rs:221-244 | Whatever the matcher chooses is encodable, stays inside the input, and a match is a true copy of earlier bytes at most 32768 back. |
| `Deflate.SearchIsLongest` | src/gzip.rs:221-244 | No candidate on the part of the hash chain that is searched matches longer than the match chosen, unless the search had already settled for 32 bytes. |
| `Deflate.FindMatch` | src/gzip.rs:221-244 | The chain walk over the head and prev arrays computes the search over the positions actually hashed. |
| `Deflate.InsertPos` | src/gzip.rs:258-271 | Linking a position keeps the chains: each entry leads to the previous position of the same hash. |
| `Deflate.EmitTokens` | src/gzip.rs:197-278 | The main loop writes the codes of exactly the tokens the matcher chooses, hashing every position passed over. |
| `Deflate.Compress` | src/gzip.rs:197-323 | The output is the single final fixed-Huffman block of the chosen tokens, packed into bytes. |
| `DeflateRoundTrip.MatchDecodes` | src/gzip.rs:246-257 | The codes and extra bits written for a match read back as its length and distance, whatever follows. |
| `DeflateRoundTrip.CopyIsPeriodic` | src/inflate.rs:303-315 | A true copy of earlier bytes, overlapping or not, is reproduced by the decoder's periodic extension. |
| `DeflateRoundTrip.TokensDecode` | src/inflate.rs:263-319 | Decoding the tokens of any suffix from the output of its prefix continues that output by the input itself. |
| `DeflateRoundTrip.FinalFixedBlock` | src/inflate.rs:392-419 | A final fixed block is decoded by the fixed tables and then ends the stream, or exceeds the cap. |
| `DeflateRoundTrip.InflateUndoesDeflate` | src/gzip.rs:319-323 | For every byte string: inflating its compression, with any bytes behind it, gives it back when it is at most 1 MiB, and otherwise fails with MaxSizeExceeded after exactly the first 1 MiB. |
| `DeflateRoundTrip.TokensCost` | src/gzip.rs:197-278 | Every token costs at most nine bits for each input byte it covers. |
| `DeflateRoundTrip.ExpansionBound` | src/gzip.rs:197-278 | Compression never takes more than nine bits a byte and ten bits over, so up to 932066 bytes always compress to at most 1 MiB. |
| `Permessage.LastByteLow` | src/gzip.rs:157-172 | The last byte of every compression is at most 1. |
| `Permessage.StripNeverFires` | src/gzip.rs:345-352 | No compression ends in the sync marker, so stripping it never removes anything. |
| `Permessage.Encode` | src/gzip.rs:345-352 | The message encoder returns the plain compression of its input. |
| `Permessage.Decode` | src/ws.rs:646-659 | The message decoder inflates the payload with the trailer put back, or fails when that fails. |
| `Permessage.DecodedBound` | src/ws.rs:646-659 | No payload decodes to more than 1 MiB. |
| `Permessage.PermessageRoundTrip` | src/ws.rs:640-659 | The message decoder undoes the encoder exactly for the messages of at most 1 MiB. |
| `SyncFlush.FlushedMessageDecodes` | src/ws.rs:640-659 | A peer's message as section 7.2.1 of RFC 7692 has it sent, blocks none of which is final, then an empty stored block whose bytes 00 00 FF FF are taken off: for every such message of at most 1 MiB the decoder gives back the bytes the blocks stand for. |
| `SyncFlush.AnyBlocksFlushed` | src/ws.rs:640-659 | The same from the side of the peer: any stored, fixed and dynamic blocks, flushed, decode to what they stand for. |
| `WsFrames.MaskTwice` | src/ws.rs:146-150 | Masking twice with one key is the identity. |
| `WsFrames.MaskChunks` | src/ws.rs:285-298 | Masking chunks whose lengths are multiples of four one by one masks the whole. |
| `WsFrames.ApplyMask` | src/ws.rs:146-150 | The in-place loop masks exactly the given part of the buffer and leaves the rest. |
| `WsFrames.BuildFrameHeader` | src/ws.rs:222-256 | The header written is that of section 5.2 of RFC 6455 for the opcode, the flags and the length. |
| `WsFrames.SendMasked` | src/ws.rs:281-298 | Sending 4096 masked bytes at a time sends the whole payload masked. |
| `WsFrames.WriteMaskedFrame` | src/ws.rs:264-300 | What is sent is one complete masked frame, its payload compressed when asked. |
| `WsFrames.HeaderReads` | src/ws.rs:222-256 | Every header written reads back as its opcode, flags and mask bit. |
| `WsFrames.FrameRoundTrip` | src/ws.rs:855-964 | Every frame written parses to the frame meant, and leaves exactly what follows it. |
| `WsFrames.ParseComplete` | src/ws.rs:855-964 | A complete header and payload are found as one frame, whatever has arrived behind them. |
| `WsFrames.MessageRoundTrip` | src/ws.rs:264-300 | For every key: text and binary messages, compressed or not, whose payload and frame are at most 1 MiB are read back as written, and no byte behind them is touched. |
| `WsFrames.CompressedRoundTrip` | src/ws.rs:264-300 | Any payload up to 932066 bytes survives compression, framing, reading and decompression. |
| `WsFrames.ControlRoundTrip` | src/ws.rs:264-300 | Pings and pongs up to 125 bytes are read back in the middle of any fragmented message, which goes on undisturbed. |
| `WsReassembly.PeerFrameReads` | src/ws.rs:855-964 | A peer's frame, masked or not, written byte by byte as section 5.2 of RFC 6455 says, is taken, as what it says and with nothing behind it touched, exactly when sections 5.2 to 5.5 and the agent's limits allow it; otherwise it is refused. |
| `WsReassembly.MaskedBit` | src/ws.rs:146-150 | A masked bit is turned over exactly where the key has a one, the four key bytes taken in turn. |
| `WsReassembly.SingleFrame` | src/ws.rs:791-853 | A text or binary message in one frame comes out as its payload, or as what that inflates to when the frame says so. |
| `WsReassembly.FragmentedMessage` | src/ws.rs:812-852 | A text or binary message of at most 1 MiB cut into any fragments, masked or not, with any pings and pongs between them: the controls come out in order, then the message with its parts in order, or what they inflate to when the first frame says so, then what follows. |
| `WsReassembly.CloseFrame` | src/ws.rs:812-852 | A close frame comes out as such in the middle of any message, which is dropped. |
| `WsReassembly.CompressedInFragments` | src/ws.rs:640-659 | A peer's compressed message, flushed and cut into any fragments, comes out as the bytes that were compressed. |
| `WsReader.FillFramePart` | src/ws.rs:969-997 | However reads are cut, timed out, interrupted or broken off, no byte is lost: what is buffered followed by what is to come stays the same; each of the four outcomes says what the transport did. |
| `WsReader.FrameReader.ReadFrame` | src/ws.rs:855-964 | A frame is returned exactly when the complete-stream parser finds it, the next frame's bytes stay in the transport, a timeout keeps all progress, and a transport error is reported only when the transport has one and the parser still needs bytes. |
| `WsReader.FrameReader.Absorb` | src/ws.rs:812-852 | One frame changes the message in flight as the fragmentation rules of section 5.4 of RFC 6455 say. |
| `WsReader.FrameReader.ReadMessage` | src/ws.rs:791-853 | Each call returns what the pure parser says of buffered and coming bytes together: a message, a clean end, an end in mid-message, the same protocol error, a timeout that lost nothing, or the transport's own error where the parser still needs bytes; after an error the reader stays failed and reads nothing. |
| `WsReader.Retained` | src/ws.rs:772-781 | A reader never holds a message or a frame buffer above 1 MiB, failed or not; while it works, a data frame and the message it continues are at most 1 MiB together. |
| `WsReader.Poll` | src/server/reconnection.rs:709-730 | Over a whole run, for any way the transport splits, delays, interrupts and breaks off the bytes, the messages delivered are exactly those of the parser on the concatenated bytes, and the run ends as those bytes and the transport end. |
| `Utf8.RoundTrip` | src/json.rs:177-177 | Decoding undoes encoding for every Unicode text. |
| `Utf8.DecodeSound` | src/json.rs:177-177 | Only the shortest, surrogate-free encoding of a text decodes to it. |
| `Utf8Bits.TwoBytes` | src/json.rs:177-177 | Of a character of two bytes, the first starts 110 and the second 10, and what is left of them are its eleven bits in order (section 3 of RFC 3629). |
| `Utf8Bits.ThreeBytes` | src/json.rs:177-177 | Of a character of three bytes, the first starts 1110 and the others 10, and what is left are its sixteen bits. |
| `Utf8Bits.FourBytes` | src/json.rs:177-177 | Of a character of four bytes, the first starts 11110 and the others 10, and what is left are its twenty-one bits. |
| `JsonStrings.SpellingExact` | src/json.rs:173-228 | A raw literal is accepted exactly when it is a string of section 7 of RFC 8259 in UTF-8 with surrogates only in pairs, and it has one reading. |
| `JsonStrings.WithoutEscapes` | src/json.rs:178-183 | The shortcut for text without a backslash agrees with the full decoder. |
| `JsonStrings.DecodeJsonString` | src/json.rs:173-228 | The decoder's loop returns the text that the literal spells, or nothing when it is no literal. |
| `JsonStrings.SkipString` | src/json.rs:21-31 | The scan stops behind the closing quote, or at the end of the input. |
| `JsonStrings.ClosingLiteral` | src/json.rs:21-31 | The byte scan, which knows nothing of characters, stops exactly behind every literal of the grammar. |
| `JsonStrings.WriteJsonString` | src/json.rs:669-690 | Appends the quoted and escaped bytes of the text and leaves the rest of the output. |
| `JsonStrings.QuotedIsLiteral` | src/json.rs:669-690 | What is written for any text is a literal of the grammar, although escaping works byte by byte. |
| `JsonStrings.StringRoundTrip` | src/json.rs:669-690 | Decoding what is written for any Unicode text gives the text back. |
| `JsonEscapes.EscapesExact` | src/json.rs:173-228 | The decoder returns a text exactly for the literals that write it: each character as it is, by its escape letter, by one UTF-16 code unit or by two, in hexadecimal digits of either case, as section 7 of RFC 8259 spells them out. |
| `JsonNumbers.NumberExact` | src/json.rs:90-125 | A token is accepted as a number exactly when it is one of section 6 of RFC 8259, and it has one reading. |
| `JsonNumbers.CheckNumber` | src/json.rs:92-125 | The cursor loop accepts exactly those tokens. |
| `JsonScan.ScanValueSound` | src/json.rs:38-127 | Whatever the scanner accepts was written by a tree of the grammar nested at most 32 deep and without duplicate decoded names. |
| `JsonScan.ScanValueComplete` | src/json.rs:38-127 | Every such tree, printed before anything that may follow it, is accepted and found whole: the scan ignores what follows a delimiter. |
| `JsonText.ValueEnd` | src/json.rs:38-127 | The recursive cursor scanner stops exactly where the grammar's value ends, or rejects. |
| `JsonText.SkipValue` | src/json.rs:34-36 | A well-formed value is skipped exactly, anything else to the end of the input. |
| `JsonText.ValidatorExact` | src/json.rs:131-135 | The accepted texts are exactly those of the grammar's objects within the depth bound and without duplicate decoded names at any level, with white space around, and each has one tree. |
| `JsonText.AcceptedIsUtf8` | src/json.rs:131-135 | Every accepted text is valid UTF-8, though only parts of it are ever checked. |
| `JsonText.IsValidObject` | src/json.rs:131-135 | Answers yes for exactly those texts. |
| `JsonText.TooDeep` | src/json.rs:38-63 | A container at the depth bound is accepted only when it is empty. |
| `JsonDepth.DepthExact` | src/json.rs:38-63 | A value stands at exactly the depths that leave room for its own nesting: at most 32 containers stand around any value of an accepted text. |
| `JsonGrammar.NamesDiffer` | src/json.rs:67-69 | No two members of an accepted object share a decoded name. |
| `JsonGrammar.LookupExact` | src/json.rs:138-170 | Finding a member by decoded name is membership in the list of members. |
| `JsonText.FieldExact` | src/json.rs:138-170 | On accepted input the lookup fails exactly when no member has the name; otherwise it returns the raw text of the only one that has. |
| `JsonText.ObjectField` | src/json.rs:138-170 | The re-scanning loop computes that lookup on every input, rejecting what the validator rejects. |
| `Envelope.NewRequest` | src/protocol/v2.rs:131-141 | The request's bytes in wire order. |
| `Envelope.NewNotification` | src/protocol/v2.rs:117-125 | The notification's bytes in wire order. |
| `Envelope.KeysAreOk` | src/protocol/v2.rs:117-141 | The fixed names need no escapes and are pairwise different. |
| `Envelope.RequestRoundTrip` | src/protocol/v2.rs:131-141 | For any id, any method and any value nested at most 31 deep as parameters, the request is a valid object whose fields give back all three: no text can break out of its quotes. |
| `Envelope.NotificationRoundTrip` | src/protocol/v2.rs:117-125 | The same for notifications, which have no id. |
| `Envelope.AcceptedInFull` | src/json.rs:38-127 | The parameter texts that the scanner takes in full one level down are exactly the values nested at most 31 deep. |
| `Envelope.ValidateResponse` | src/protocol/v2.rs:164-174 | Accepts exactly the valid objects whose own fields say version 2.0, no error, and a result that is not null. |
| `Envelope.ResponseHasError` | src/protocol/v2.rs:177-179 | Only the envelope's own error field counts, and null is none. |
| `WireNames.RequestOnTheWire` | src/protocol/v2.rs:131-141 | What a request says under the names on the wire, written out: `jsonrpc` is the string 2.0, `id` and `method` read as the texts put in, `params` is the raw value put in. |
| `WireNames.ResponseExact` | src/protocol/v2.rs:164-179 | Said of the members of the tree: a response is a success exactly when its `jsonrpc` is the string 2.0, it has a `result` that is not null, and no `error` but null. |
| `Settings.TokenizeString` | src/config.rs:1022-1027 | A string token is exactly a literal of the grammar, even where the value scan falls back to the end of the input. |
| `Settings.TokenizeNumber` | src/config.rs:1031-1088 | A number token is its source text, leading zeros allowed, up to the last digit. |
| `Settings.Tokenize` | src/config.rs:926-1018 | The loop yields the token sequence of the text, or fails at the first character that starts none. |
| `Settings.Parser.ParseValue` | src/config.rs:1131-1164 | Consumes exactly one value of the token grammar and returns it, or fails. |
| `Settings.Parser.ParseObject` | src/config.rs:1166-1210 | Consumes an object and returns its map, a later entry of a name replacing an earlier one. |
| `Settings.Parser.ParseArray` | src/config.rs:1212-1242 | Consumes an array and returns its items in order. |
| `SettingsAgree.TokensOfValue` | src/config.rs:926-1018 | Tokenizing any value of the grammar flattens its tree, in any surroundings that end it. |
| `SettingsAgree.ParsesValue` | src/config.rs:1131-1242 | Parsing the tokens of any tree yields its typed value and leaves the tokens behind it. |
| `SettingsAgree.TypedMembersExact` | src/config.rs:1166-1210 | The parsed map holds exactly the object's members, each with its typed value. |
| `SettingsAgree.ReadersAgree` | src/config.rs:1266-1283 | On every text the validator accepts, the parser succeeds too; for every name, the map has it exactly when the field lookup finds it, with the kind and value of the raw text found. |
| `SettingsAgree.ApplyJsonBytes` | src/config.rs:1266-1283 | More than 1 MiB is refused, invalid text is refused, and on the rest neither tokenizer nor parser can fail. |
| `SettingValues.SettingValue` | src/config.rs:1131-1164 | What the raw text under a name is worth: `true`, `false` and `null` themselves, a string the text it spells, a number its own source, an object nothing. |
| `SettingValues.ArrayValues` | src/config.rs:1212-1242 | Each item of an array is worth what its text is worth on its own, in order. |
| `UploadPlan.ChunksTile` | src/file_control.rs:1443-1453 | Metadata are accepted exactly when they form a plan and the index is in it; each chunk starts where the ones before it stop, the last stops at the end, and no offset overflows 64 bits. |
| `UploadPlan.ChunkOfByte` | src/file_control.rs:1443-1453 | Every byte of the file lies in exactly one chunk. |
| `UploadPlan.Pigeonhole` | src/file_control.rs:1309-1311 | A set of indices below `n` has `n` members exactly when it holds them all. |
| `UploadPlan.PartNameInjective` | src/file_control.rs:1494-1500 | Stage names can be read back: valid identifiers hold no dot. |
| `UploadPlan.StagesDiffer` | src/file_control.rs:1569-1572 | Uploads with different identifiers never share a stage file, whatever their targets. |
| `UploadPlan.StageBeside` | src/file_control.rs:1569-1572 | A stage file lies in the directory of its target, is not the target, and its name holds no separator when the target's holds none. |
| `Upload.WriteInPlace` | src/file_control.rs:1253-1259 | Writing a chunk puts it at its place and moves no other chunk, in any order of arrival. |
| `Upload.PrunedKeeps` | src/file_control.rs:1502-1515 | Expiry removes no live session's stage file. |
| `UploadEffects.PrunedExactly` | src/file_control.rs:1502-1515 | Expiry drops exactly the sessions idle for 1800 seconds and exactly their stage files; all else is as it was. |
| `UploadEffects.UploadAccepted` | src/file_control.rs:1117-1277 | A chunk is stored exactly when its target, identifier, plan, index and offset are right, it was not cancelled in the last 900 seconds, its live session has the same plan or it is chunk 0 and fewer than 16 sessions are live, and the transfer delivers its bytes, all and no more. |
| `UploadEffects.UploadExact` | src/file_control.rs:1117-1277 | A stored chunk is in its session and in its stage file, byte for byte at its offset; every other session and file is as it was, but for what had expired. |
| `UploadEffects.RefusedUpload` | src/file_control.rs:1117-1277 | A refused upload makes, changes and removes no file but the stage file of a session it opens, and expired stage files. |
| `Upload.UploadedKeeps` | src/file_control.rs:1117-1277 | An upload request keeps the invariant, whatever its target, and whether it is refused, opens a session or stores a chunk. |
| `Upload.CancelledKeeps` | src/file_control.rs:1343-1371 | A cancellation, also of an upload without a session, removes no other session's stage file. |
| `UploadEffects.CancelAccepted` | src/file_control.rs:1343-1371 | A cancellation is refused exactly when its identifier is invalid or it names another target than that of the live session. |
| `UploadEffects.CancelExact` | src/file_control.rs:1343-1371 | After an accepted cancellation the session is gone and so is its stage file or, without a live session, the stage file that belongs to the path given; every other session and file is as it was, but for what had expired, and every session left still has its stage file. |
| `UploadEffects.CancelRefusedKeeps` | src/file_control.rs:1343-1371 | A refused cancellation keeps the session and marks nothing. |
| `Upload.MarksBound` | src/file_control.rs:1530-1546 | Marking never leaves more than 1024 tombstones, and the new one is among them. |
| `Upload.StepKeeps` | src/file_control.rs:1117-1371 | As long as no session's target is another session's stage file, every request keeps the invariant: stages apart, received indices exactly those recorded, every recorded chunk in place. |
| `UploadRuns.RunBounded` | src/file_control.rs:1117-1371 | In every run whatever, at every point: at most 16 sessions and at most 1024 tombstones. |
| `UploadRuns.RunKeeps` | src/file_control.rs:1117-1371 | In every run over uploads none of which targets the stage file of another, at every point every recorded chunk is in its place. |
| `Upload.CompleteStage` | src/file_control.rs:1309-1318 | Counting the received set decides completeness, and a complete stage file is the recorded chunks end to end. |
| `Upload.CommitIsComplete` | src/file_control.rs:1279-1341 | A commit succeeds exactly when the live session's metadata match, every chunk has been recorded and the target is no directory; then the target holds the last data of all chunks end to end, of the announced length, and nothing else changes but the stage file. |
| `UploadRuns.CommitCompletes` | src/file_control.rs:1279-1341 | In every such run a commit leaves exactly the recorded data at its target when all is recorded and nothing else speaks against it; otherwise it creates and changes no file. |
| `UploadRuns.CompleteUnlessClashing` | src/file_control.rs:1279-1341 | The exact condition: for any set of identifiers with their targets, every commit of every run over them is complete if and only if no target is the stage file of another upload of the set. |
| `UploadRuns.StageTargetsInterfere` | src/file_control.rs:1117-1341 | For any two uploads of which the second targets the first one's stage file: a run that commits bytes other than the ones recorded. |
| `UploadRuns.CancelSticks` | src/file_control.rs:1525-1546 | In every run: for 15 minutes after a cancellation every upload of that identifier is refused and changes no session and no file, unless 1024 other identifiers are cancelled meanwhile; no commit can clear the tombstone. |
| `UploadServer.Server.PruneUploads` | src/file_control.rs:1502-1515 | Exactly the sessions idle for half an hour go, with their stage files. |
| `UploadServer.Server.MarkUploadCanceled` | src/file_control.rs:1530-1546 | Dead tombstones go, one of the oldest makes room when 1024 are alive, and the new one is set. |
| `UploadServer.Server.UploadStream` | src/file_control.rs:1117-1277 | Handles an upload request as the state machine says, in every branch. |
| `UploadServer.Server.UploadCommit` | src/file_control.rs:1279-1341 | Handles a commit as the state machine says, in every branch. |
| `UploadServer.Server.UploadCancel` | src/file_control.rs:1343-1371 | Handles a cancellation as the state machine allows, in every branch. |
| `Events.ExtractEventObjects` | src/server/reconnection.rs:458-492 | On a response whose `result.events` is an array of objects, exactly its elements in order; an element of another kind refuses the whole batch; without the field there are none. |
| `Events.TakenInOrder` | src/server/reconnection.rs:458-492 | Element for element, the texts taken are those of the array. |
| `EventIds.BatchTaken` | src/server/reconnection.rs:458-492 | Said of the members of the tree, with the names written out: the events of a response are the items of `events` in its `result`, all of them and in order when it is an array of objects; otherwise the batch is refused. |
| `EventIds.NoEventsNoWork` | src/server/reconnection.rs:458-492 | A result without `events`, or that is no object, is an empty batch. |
| `EventIds.NoResultNoBatch` | src/server/reconnection.rs:458-492 | A response without a result, or that is no valid object, is refused. |
| `EventIds.EventIdExact` | src/server/task.rs:65-78 | An event is identified by the text of its own member `id`; when that is no string, by nothing; without it, by the `id` of its `params`; and otherwise by nothing. |
| `EventIds.BatchIdentified` | src/server/reconnection.rs:512-527 | Each event of a batch is the text of the item at its place in the array, and it is acknowledged and held back by the identifier that this item names. |
| `Events.V2EventBus.MarkSeen` | src/server/reconnection.rs:57-69 | Answers whether the event is among the last dispatched, and moves the window on by one when it is not. |
| `Events.V2EventBus.DrainAcks` | src/server/reconnection.rs:71-73 | Hands over all pending acknowledgements and leaves none. |
| `Events.WindowIsLast` | src/server/reconnection.rs:57-69 | After any run of sightings, the window holds exactly the last 256 dispatched events. |
| `Events.DispatchesFarApart` | src/server/reconnection.rs:57-69 | In any run, two dispatches of one named event have at least 256 others between them, and any 257 consecutive dispatches are of different events. |
| `Events.HeldBackIsRecent` | src/server/reconnection.rs:57-69 | An event is held back exactly when it has a name and is among the last 256 dispatched. |
| `Events.DispatchedByBatch` | src/server/reconnection.rs:496-527 | What one response dispatches continues what the responses before it did, so the distances hold across responses. |
| `Events.ProcessEvents` | src/server/reconnection.rs:496-527 | Every sighting of a named event queues one acknowledgement, in order; due for dispatch are exactly the events outside the window; a refused batch changes nothing. |
| `Crc32.StepsLinear` | src/gzip.rs:15-24 | The register's steps are linear over exclusive or. |
| `Crc32.LookupIsSteps` | src/gzip.rs:32-38 | One table lookup and shift does eight steps of the register. |
| `Crc32.ByteStep` | src/gzip.rs:32-38 | One round of the loop divides by the eight bits of one byte, least significant first. |
| `Crc32.MakeTable` | src/gzip.rs:11-30 | Entry `i` of the table is eight steps from `i`. |
| `Crc32.DivideBound` | src/gzip.rs:32-38 | The register never outgrows its 32 bits. |
| `Crc32.Compute` | src/gzip.rs:32-38 | The table loop computes the bit-at-a-time division of section 8 of RFC 1952 for every byte string. |
| `Base64.AlphabetExact` | src/tls.rs:412-421 | The decoding table is the exact inverse of the alphabet, and the padding is no letter. |
| `Base64.StandardAlphabet` | src/proxy.rs:776-802 | The letters are those of the table in section 4 of RFC 4648, in its order. |
| `Base64.EncodeVar` | src/proxy.rs:776-802 | The growing encoder computes the code of section 4 of RFC 4648, defined on the bit string. |
| `Base64.EncodeFixed` | src/crypto.rs:166-206 | The in-place encoder fills a buffer of the right size with the same code. |
| `Base64.EncodeLength` | src/crypto.rs:160-170 | The code of `n` bytes has four characters for each group of three, the last filled up. |
| `Base64.DecodeStrip` | src/tls.rs:411-508 | The decoder's loop, its partial last group and its final cut compute the decoding. |
| `Base64.DecodeUndoesEncode` | src/tls.rs:411-508 | Decoding gives back every byte string that was encoded. |
| `Calendar.CalendarIsGregorian` | src/server/task.rs:154-165 | On every day, before and after 1970: day 0 is 1970-01-01, each date is valid, and each day's date is followed by the next day of the Gregorian calendar, leap years included. |
| `Calendar.YearOfSplit` | src/file_control.rs:579-590 | The division-only year formula is right on all 146097 days of an era. |
| `Calendar.DatesIncrease` | src/file_control.rs:579-590 | Later days have later dates. |
| `Calendar.DayNumberOfCivil` | src/file_control.rs:579-590 | Counting days from a date undoes the conversion. |
| `Calendar.CivilOfDayNumber` | src/server/task.rs:154-165 | Every valid date of every year is the date of its day number. |
| `Calendar.YmdAgrees` | src/monitor/netstatic.rs:391-403 | The counter's variant gives the date of its day exactly as long as the year fits 32 bits. |
| `CounterFile.WriteU64` | src/monitor/netstatic.rs:332-354 | The digits written backwards and turned around in place are the number's decimal form. |
| `CounterFile.DecimalFits` | src/monitor/netstatic.rs:332-354 | No 64-bit number takes more than 20 digits. |
| `CounterFile.ReverseInPlace` | src/monitor/netstatic.rs:346-352 | The swapping loop reverses exactly the written part. |
| `CounterFile.FormatNetstatic` | src/monitor/netstatic.rs:239-329 | The whole object fits the 96-byte buffer; it never takes more than 83 bytes. |
| `CounterFile.ParseU64` | src/monitor/netstatic.rs:360-365 | Reads exactly the decimal numbers below 2^64. |
| `CounterFile.FormattedMonthIsValid` | src/monitor/netstatic.rs:406-419 | Every month the program formats is one it accepts, for every time. |
| `CounterFile.FormattedMonthReads` | src/monitor/netstatic.rs:406-419 | The digits written are those of the month and of the year, of which the last four are kept. |
| `CounterFile.Load` | src/monitor/netstatic.rs:63-107 | Loads exactly the files within 1024 bytes that hold a valid month and two 64-bit counts. |
| `CounterFile.CountersRoundTrip` | src/monitor/netstatic.rs:63-127 | For every valid month and every pair of 64-bit counts, the file written loads as the same three values. |
| `WireNames.CountersOnFile` | src/monitor/netstatic.rs:239-329 | What the file says under the names written out: `month` reads as the month, `tx_bytes` and `rx_bytes` are the counts in decimal. |

## Left out

- Deflate.Compress: requires at most 2^31 bytes, because the source keeps positions in 32-bit signed integers; the theorems about its result have no such bound.
- Huffman.Build: requires at most 65535 lengths, because symbols are 16-bit; the program's own tables have at most 288.
- CounterFile.Load: the trimming of Unicode white space around the file and the reading of the file are not modelled; JSON white space around the object is.
- Events.ProcessEvents: the dispatch of the events it returns is not modelled, nor is the lock around the bus.
- UploadServer.Server.UploadStream: one request is one atomic step at one time; the temporary file a transfer goes through, file-system errors, permissions, and the limit on concurrent streams are not modelled. The transferred bytes are an argument.
- UploadServer.Server.UploadCommit: syncing and permissions are not modelled; paths are lists of names compared exactly, so case-insensitive systems and names that are not Unicode are not covered.
- Settings.TokenizeNumber: a number is kept as its source text; conversion to floating point is not modelled.
- SettingsAgree.ApplyJsonBytes: copying the parsed members into the configuration is not modelled.
- WsReader.Poll: stands for the polling loop around the reader; the reports sent, the handling of messages and the read timeouts that make the transport give up are not modelled.
- WsFrames.WriteMaskedFrame: the mask key is an argument; where the source draws it at random is not modelled.
- Inflate.ReadRuns: the three repeat codes are treated by one method that looks up how many bits they take and what they repeat.
- Calendar.CalendarIsGregorian: day numbers are unbounded; the addition of 719468 in `civil_from_days` overflows a 64-bit integer for day numbers within 719468 of the largest one, which is not modelled.
- Shifts and masks by constants are division and remainder in the Base64 encoders; elsewhere bit operations are functions on the bits of unbounded numbers. Machine widths are written out where they matter: in the chunk arithmetic, the counters, the frame lengths and the 32-bit year.
- `inflate_zlib`, Adler-32 and the gzip header and trailer: a checksum that is deliberately ignored, and constants.
- `build_startup_config_params`: the same builder with two other names.
- `JsonBuf` and its number formatting, including the doubled comma of nested slices in `EncodeJson`.
- `maybe_reset`, the counters' wrapping additions and the atomic replacement of the counter file.
- Sockets, TLS, DNS, proxies, HTTP, subprocesses, terminals and all metric collectors.
- The other file operations, command-line and environment settings, and the connection state machines and timers.
