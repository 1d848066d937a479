# Slippi replay decoding, modelled in Dafny

This project models the core of the C# decoder for Project Slippi `.slp` replay files, as used by the Slippi Unity visualizer. It also models the small pure helpers around that decoder.

- `slp_reader.dfy` (SlpReader) covers the container layout:
  - the first byte decides between a bare legacy event stream and a UBJSON object whose raw array starts at offset 15;
  - the raw-data length comes from the big-endian int32 in front of that array;
  - the command-to-payload-size table comes from the MESSAGE_SIZES event, or a fixed table for legacy files.

  It also covers the big-endian payload readers, ParseMessage and the IterateEvents loop. The loop reuses its per-command buffers.
- `slp_parser.dfy` (SlpParser) is the frame-reconstruction state machine, a class:
  - settings, with the Sheik/Zelda fix-up and completion;
  - frame entries for players and followers, and items;
  - bookends;
  - in-order frame finalization.

  Its four .NET events become an appended notification log. A ghost field records every payload handed to HandleCommand, so the session's contracts can say what the parser was fed.
- `slippi_game.dfy` (SlippiGame) is the resumable session. Process reopens the file on each call, resumes the walk at the stored position and feeds the parser. A settings-only call stops once the settings are complete.
- `types.dfy` (Types) holds:
  - the command and game-mode codes and the payload records;
  - the exceptions the code can throw, as a returned `Status`;
  - the dictionary-based `DeserializeFromUbJson` methods.
- `version.dfy` (Version) prints and parses "a.b.c" version strings and compares them.
- `full_width.dfy` (FullWidth) folds full-width characters to half-width.
- `lookup_table.dfy` (SlippiLookupTable) holds the id-to-name tables for characters, stages and animations.
- `ubjson_serializer.dfy` (UbJsonSerializer) models the vendored UBJSON serializer:
  - integer width selection through C#'s unchecked narrowing casts;
  - big-endian bytes, length prefixes and string framing;
  - container framing.

  The array-filling helpers are imperative.
- `bits.dfy` (Bits) and `wrappers.dfy` (Wrappers) are shared foundations:
  - bytes and 32-bit wrap-around;
  - big-endian encoding and its round trips;
  - decimal text and String.Split;
  - Option and Result.

**The model follows the code, including these behaviours:**

- An unrecognised first byte, including an empty file, gives a raw-data position of 0. It is not an error (`SlpReader.RawDataPosition`).
- When the callback asks to stop, IterateEvents returns the start of the event it stopped on, not the position after it. A resumed Process therefore hands that event to the parser again (`SlippiGame.ResumeRedelivers`).
- `PlayerType.DeserializeFromUbJson` reads every key with the dictionary indexer. A missing key of any kind throws KeyNotFoundException, so none of the player keys is optional (`Types.DeserializePlayer`).
- The UBJSON string length prefix counts UTF-16 code units, not the UTF-8 bytes that follow it (`UbJsonSerializer.LengthCountsBytesIffAscii`).
- A short up to 127, and an int or a long from -32768 to 127, is written in the Int8 form, so a value below -128 keeps only its low byte. Below -32768 the narrowing casts keep the low 16 or 32 bits, which can read as a positive value: an int of -33768 is written as the Int16 value 31768, and a long of -2147483649 as the Int32 value 2147483647 (`UbJsonSerializer.SerializeLong`, `UbJsonSerializer.NarrowingWraps`).
- A char above 32767 becomes a negative short and is emitted as an Int8 holding its low byte (`UbJsonSerializer.CharEncoding`).
- Player i's name tag is decoded from the 16 bytes at offset 16·i of the GameStart payload. The offset 0x161 + 16·i is computed beside it but never used (`SlpReader.PlayerFields`).

## Model

| member | source | states |
|---|---|---|
| Bits.Wrap32 | Assets/Scripts/SlippiCS/SlpParser.cs:254 | int subtraction in frame arithmetic wraps: the result is the exact value, or that value plus or minus 2^32 when it leaves the int range |
| Bits.Wrap32Congruent | Assets/Scripts/SlippiCS/SlpParser.cs:207 | the wrapped frame number agrees with the exact one modulo 2^32 |
| Bits.BigEndianRoundTrip | Assets/Scripts/Vendor/UbJsharp/UbJsonSerializer.cs:33-39 | reading back `len` big-endian bytes of a number gives the number modulo 256^len |
| Bits.SignedRoundTrip | Assets/Scripts/SlippiCS/SlpReader.cs:427-440 | a value that fits in `len` bytes of two's complement reads back unchanged |
| Bits.UnsignedRoundTrip | Assets/Scripts/SlippiCS/SlpReader.cs:452-465 | a value below 256^len reads back unchanged as unsigned big-endian |
| Bits.NatToStringRoundTrip | Assets/Scripts/SlippiCS/SlpReader.cs:283 | the decimal text of a number parses back to the number |
| Bits.SplitFirstPiece | Assets/Scripts/SlippiCS/SlpReader.cs:262-263 | the first piece of Split is the longest prefix free of the separator, and the separator follows it when the text goes on |
| FullWidth.ConvertChar | Assets/Scripts/SlippiCS/FullWidth.cs:10-23 | a character changes exactly when it is full-width (U+FF01..U+FF5E or U+3000); the result is never full-width and is printable ASCII when it changed |
| FullWidth.ToHalfWidth | Assets/Scripts/SlippiCS/FullWidth.cs:25-26 | the conversion keeps the length and leaves no full-width character |
| FullWidth.ToHalfWidthIdempotent | Assets/Scripts/SlippiCS/FullWidth.cs:8-27 | converting twice is converting once |
| FullWidth.ToHalfWidthFixedPoint | Assets/Scripts/SlippiCS/FullWidth.cs:8-27 | a string is unchanged if and only if it holds no full-width character |
| FullWidth.HalfWidthOfFullWidth | Assets/Scripts/SlippiCS/FullWidth.cs:12-15 | the full-width form of printable ASCII text converts back to that text |
| Version.Parse | Assets/Scripts/SlippiCS/SlpParser.cs:98 | a parsed version has three components, each at most int.MaxValue |
| Version.FormatParseRoundTrip | Assets/Scripts/SlippiCS/SlpReader.cs:283 | the printed "a.b.c" version parses back to its three bytes, and fails to parse exactly when one byte was absent |
| Version.CompareTotal | Assets/Scripts/SlippiCS/SlpParser.cs:203 | version comparison is total, and two versions are each at least the other only when equal |
| Version.AtLeast | Assets/Scripts/SlippiCS/SlpParser.cs:98 | every version is at least itself, and a larger (smaller) major component makes `>=` true (false) |
| Version.AtMost | Assets/Scripts/SlippiCS/SlpParser.cs:203 | `v <= w` holds exactly when the versions are equal or `v >= w` fails |
| Version.FormatVersion | Assets/Scripts/SlippiCS/SlpReader.cs:283 | the printed version splits at its dots into exactly the three printed components |
| Types.CommandOf | Assets/Scripts/SlippiCS/Types.cs:6-15 | a byte names command c exactly when it is c's code |
| Types.CodesDistinct | Assets/Scripts/SlippiCS/Types.cs:6-15 | two commands have the same code if and only if they are the same command |
| Types.DeserializePlayer | Assets/Scripts/SlippiCS/Types.cs:37-54 | a non-dictionary throws ArgumentException; the call succeeds if and only if all nine keys are present and playerIndex and port hold ints; on success each field is its key's value cast with `as`; any other failure is KeyNotFoundException or InvalidOperationException |
| Types.FirstBadPlayer | Assets/Scripts/SlippiCS/Types.cs:104-114 | every element before the returned position deserializes and the one at it does not |
| Types.FirstBadIsFirst | Assets/Scripts/SlippiCS/Types.cs:104-114 | the first element where the loop meets a failure is the first failing element |
| Types.WithHeader | Assets/Scripts/SlippiCS/Types.cs:81-96 | each of slpVersion, isTeams, isPAL and stageId is assigned only when its key is present; nothing else changes |
| Types.DeserializeGameStart | Assets/Scripts/SlippiCS/Types.cs:73-126 | a non-dictionary throws ArgumentException; optional keys are assigned only when present; a missing players key throws KeyNotFoundException and a non-array throws NullReferenceException; the players are rebuilt in array order up to the first bad element, whose exception propagates; the call succeeds if and only if every element deserializes and gameMode, when present, is an int |
| Types.DeserializeGameEnd | Assets/Scripts/SlippiCS/Types.cs:219-235 | a non-dictionary throws ArgumentException; otherwise each of the two fields is set exactly when its key is present |
| SlpReader.ReadInto | Assets/Scripts/SlippiCS/SlpReader.cs:55-71 | a read puts the file's bytes at the front of the buffer, and past the end of the file the buffer keeps its old content |
| SlpReader.ReadFresh | Assets/Scripts/SlippiCS/SlpReader.cs:163-164 | a read into a new buffer that fits in the file gives exactly the file's bytes |
| SlpReader.RawDataPosition | Assets/Scripts/SlippiCS/SlpReader.cs:161-177 | the position is 15 if and only if the first byte is '{', and 0 otherwise, with no error for other bytes or an empty file |
| SlpReader.RawDataLength | Assets/Scripts/SlippiCS/SlpReader.cs:139-159 | a legacy file's stream is the whole file; for a UBJSON file it is the big-endian int32 at bytes 11..14 when that is positive, and the file length minus 15 when it is zero or negative |
| SlpReader.RawDataLengthOfHeader | Assets/Scripts/SlippiCS/SlpReader.cs:147-156 | a UBJSON file whose length field holds `len` starts its stream at 15 and reports `len` when it is positive, and everything after the field otherwise |
| SlpReader.Triplets | Assets/Scripts/SlippiCS/SlpReader.cs:127-132 | every command named by a stored triplet is in the table, and so is every base entry |
| SlpReader.TripletsLastWins | Assets/Scripts/SlippiCS/SlpReader.cs:127-132 | a command's size is the big-endian u16 of its last triplet |
| SlpReader.TripletsUntouched | Assets/Scripts/SlippiCS/SlpReader.cs:127-132 | a command that no triplet names keeps its base entry, or stays absent |
| SlpReader.MessageSizesOf | Assets/Scripts/SlippiCS/SlpReader.cs:102-135 | legacy files get the fixed table; a stored size always fits in 16 bits |
| SlpReader.MessageSizesAbsent | Assets/Scripts/SlippiCS/SlpReader.cs:115-120 | a wrapped stream that does not start with MESSAGE_SIZES gives an empty table |
| SlpReader.MessageSizesOfEvent | Assets/Scripts/SlippiCS/SlpReader.cs:122-134 | a well-formed MESSAGE_SIZES event gives 0x35 its own length, then the sizes of its triplets |
| SlpReader.Layout | Assets/Scripts/SlippiCS/SlpReader.cs:87-95 | the opened file's fields are the computed position and length, the metadata position (position + length + 10, wrapped to int), the metadata length and the size table; opening fails exactly when the size table throws |
| SlpReader.GetMessageSizes | Assets/Scripts/SlippiCS/SlpReader.cs:102-135 | the imperative table construction equals MessageSizesOf, throwing for a zero length byte or a partial triplet |
| SlpReader.StoreTriplets | Assets/Scripts/SlippiCS/SlpReader.cs:125-134 | the loop stores every triplet in order, and throws IndexOutOfRange when the buffer is not a whole number of triplets |
| SlpReader.OpenSlpFile | Assets/Scripts/SlippiCS/SlpReader.cs:184-188 | opening computes exactly Layout(bytes) |
| SlpReader.ReadUint8 | Assets/Scripts/SlippiCS/SlpReader.cs:482-489 | null if and only if the byte lies outside the payload, otherwise the byte |
| SlpReader.ReadInt8 | Assets/Scripts/SlippiCS/SlpReader.cs:442-450 | null if and only if out of range, otherwise a value in -128..127 congruent to the byte |
| SlpReader.ReadBool | Assets/Scripts/SlippiCS/SlpReader.cs:491-499 | null if and only if out of range, otherwise true exactly for a non-zero byte |
| SlpReader.ReadUint16 | Assets/Scripts/SlippiCS/SlpReader.cs:467-480 | null if and only if out of range, otherwise the big-endian value of the two bytes |
| SlpReader.ReadInt32 | Assets/Scripts/SlippiCS/SlpReader.cs:427-440 | null if and only if the four bytes do not fit |
| SlpReader.ReadUint32 | Assets/Scripts/SlippiCS/SlpReader.cs:452-465 | null if and only if the four bytes do not fit |
| SlpReader.ReadFloat | Assets/Scripts/SlippiCS/SlpReader.cs:412-425 | null if and only if the four bytes do not fit |
| SlpReader.ReadInt32RoundTrip | Assets/Scripts/SlippiCS/SlpReader.cs:427-440 | an int written big-endian at an offset reads back |
| SlpReader.ReadUint32RoundTrip | Assets/Scripts/SlippiCS/SlpReader.cs:452-465 | a uint written big-endian reads back |
| SlpReader.ReadUint16RoundTrip | Assets/Scripts/SlippiCS/SlpReader.cs:467-480 | a 16-bit value written big-endian reads back |
| SlpReader.ReadInt8RoundTrip | Assets/Scripts/SlippiCS/SlpReader.cs:442-450 | a signed byte written in two's complement reads back |
| SlpReader.ControllerFix | Assets/Scripts/SlippiCS/SlpReader.cs:239-254 | "Mixed" if and only if the two words differ; otherwise "UCF" for 1, "Dween" for 2 and "None" for anything else, including two nulls |
| SlpReader.NameTagBytes | Assets/Scripts/SlippiCS/SlpReader.cs:257-259 | up to 16 bytes from i * 16, counted from the start of the payload, shorter where the payload ends |
| SlpReader.NameTag | Assets/Scripts/SlippiCS/SlpReader.cs:260-264 | the tag is the half-width form of the decoded text up to its first NUL, or of all of it when there is none; so it holds no NUL and no full-width character |
| SlpReader.NameTagOfPadded | Assets/Scripts/SlippiCS/SlpReader.cs:259-264 | a plain name padded with NULs decodes to itself |
| SlpReader.VersionByte | Assets/Scripts/SlippiCS/SlpReader.cs:283 | a version byte is null if and only if it lies outside the payload |
| SlpReader.ParsePlayer | Assets/Scripts/SlippiCS/SlpReader.cs:236-279 | player i has index i and port i + 1 |
| SlpReader.PlayerFields | Assets/Scripts/SlippiCS/SlpReader.cs:236-279 | player i's character, slot type, stocks, colour and team are the bytes at 0x65, 0x66, 0x67, 0x68 and 0x6e plus 0x24·i; its controller fix is chosen by the big-endian words at 0x141 + 8·i and 0x145 + 8·i; its name tag is decoded from the 16 bytes at 16·i |
| SlpReader.PlayerSlotRoundTrip | Assets/Scripts/SlippiCS/SlpReader.cs:266-276 | ten bytes written at 0x65 + 0x24·i read back as player i's character, slot type, stocks and colour (first four) and team (tenth) |
| SlpReader.ControllerFixRoundTrip | Assets/Scripts/SlippiCS/SlpReader.cs:238-254 | two words written big-endian at 0x141 + 8·i and 0x145 + 8·i give player i the controller-fix option those words select |
| SlpReader.ParseGameStart | Assets/Scripts/SlippiCS/SlpReader.cs:281-290 | there are always four players, each parsed from its own slot |
| SlpReader.ParsePreFrameUpdate | Assets/Scripts/SlippiCS/SlpReader.cs:291-312 | the frame number is the big-endian int32 at bytes 1..4, the player index byte 5 and the follower flag byte 6, each null when the payload ends before it |
| SlpReader.ParsePostFrameUpdate | Assets/Scripts/SlippiCS/SlpReader.cs:313-346 | keyed like a pre-frame update: frame at bytes 1..4, player index at 5, follower flag at 6, each null past the end |
| SlpReader.ParseItemUpdate | Assets/Scripts/SlippiCS/SlpReader.cs:347-366 | the frame number is the int32 at bytes 1..4 and the type id the big-endian uint16 at 5..6, null past the end; the owner is present exactly when the payload reaches byte 0x2a |
| SlpReader.ParseMessage | Assets/Scripts/SlippiCS/SlpReader.cs:229-383 | a record is produced if and only if the byte names a command other than MESSAGE_SIZES, and the record's kind matches that command |
| SlpReader.GameStartVersion | Assets/Scripts/SlippiCS/SlpReader.cs:283 | the GameStart version parses if and only if the payload holds bytes 1..3, and then gives those bytes |
| SlpReader.LegacyGameStart | Assets/Scripts/SlippiCS/SlpReader.cs:235-290 | a GameStart of the legacy 0x140-byte size has isTeams, the stage and every per-player byte, but no controller-fix words (so "None"), no PAL flag, scene or game mode |
| SlpReader.LegacyFrameUpdates | Assets/Scripts/SlippiCS/SlpReader.cs:291-346 | legacy-size pre- and post-frame updates carry frame, player index and follower flag (and the post-frame internal character), but not the seed or the self-induced speeds |
| SlpReader.PreFrameUpdateRoundTrip | Assets/Scripts/SlippiCS/SlpReader.cs:292-295 | a pre-frame update written as command, frame and player index decodes to them |
| SlpReader.Next | Assets/Scripts/SlippiCS/SlpReader.cs:200-223 | a turn delivers an event at the current position with a listed command and its size plus one, ending at or before the stop, and advances by exactly that length |
| SlpReader.NextReads | Assets/Scripts/SlippiCS/SlpReader.cs:202-215 | the delivered command and payload are the file's bytes where the file holds them; a turn delivers nothing before the stop only for an unlisted byte or an event running past the stop |
| SlpReader.Walk | Assets/Scripts/SlippiCS/SlpReader.cs:200-226 | the loop never goes backwards, and it ends at its start or at or before the stop |
| SlpReader.WalkStep | Assets/Scripts/SlippiCS/SlpReader.cs:200-224 | the walk is the first turn's event followed by the walk from the next state |
| SlpReader.WalkFirst | Assets/Scripts/SlippiCS/SlpReader.cs:200-224 | the first event starts at the current position, and the walk goes on strictly further along |
| SlpReader.WalkTiles | Assets/Scripts/SlippiCS/SlpReader.cs:223 | the delivered events tile the region from the start to the end position, with no gap or overlap |
| SlpReader.WalkEvents | Assets/Scripts/SlippiCS/SlpReader.cs:204-215 | every delivered event has a listed command and that command's size plus one, ends at or before the stop, and is the file's bytes where the file holds it |
| SlpReader.WalkLeaves | Assets/Scripts/SlippiCS/SlpReader.cs:204-213 | when the loop stops before the stop position, the byte there is unlisted or its event would run past the stop |
| SlpReader.WalkIgnoresBuffers | Assets/Scripts/SlippiCS/SlpReader.cs:197-215 | inside the file, the reused buffers' old content does not affect what is delivered |
| SlpReader.WalkResume | Assets/Scripts/SlippiCS/SlpReader.cs:194-226 | restarted at the position of its k-th event, the walk delivers exactly that event and the rest, and ends at the same place |
| SlpReader.ProcessCallback.Invoke | Assets/Scripts/SlippiCS/SlippiGame.cs:34-43 | every call records its event; a null payload leaves the parser unchanged and replies false; otherwise the decoded payload is handed to HandleCommand (the parser's record of handled payloads grows by exactly that payload), the parser keeps its invariant and only grows, and the reply is true exactly in settings-only mode once settings are complete; an exception propagates, gives no reply and never asks to stop |
| SlpReader.ReadEvent | Assets/Scripts/SlippiCS/SlpReader.cs:202-215 | the reads at the head of a turn find an event exactly when the turn function delivers one, and then they give that event and state |
| SlpReader.Turn | Assets/Scripts/SlippiCS/SlpReader.cs:200-224 | one turn hands the walk's k-th event to the callback, whose parser is handed its non-null payload, and moves to the next state, or finds none exactly where the walk ends and hands the parser nothing |
| SlpReader.IterateRange | Assets/Scripts/SlippiCS/SlpReader.cs:200-226 | the loop hands the callback a prefix of the walk's events, and the parser exactly their non-null payloads in order; it returns the walk's end, or the start of the event the callback stopped on |
| SlpReader.IterateEvents | Assets/Scripts/SlippiCS/SlpReader.cs:190-227 | from startPos (when positive) or the stream start to RawDataPosition + RawDataLength, the callback receives a prefix of the walk's events, and the result is the walk's end or the start of the stopped-on event; the parser is handed exactly the non-null payloads of those events, in order; every reply but the last is false; a stop means the callback is in settings-only mode with the settings complete |
| SlpParser.SlpParser.constructor | Assets/Scripts/SlippiCS/SlpParser.cs:11-16 | no frames, settings, end or latest frame, settings incomplete, the last finalized frame just before the first, an empty log, and the invariant holds |
| SlpParser.FinalizedRunNumbers | Assets/Scripts/SlippiCS/SlpParser.cs:258-270 | finalizing announces frames after + 1 .. upTo exactly once each, in increasing order, and fires no Settings |
| SlpParser.KeepOccupied | Assets/Scripts/SlippiCS/SlpParser.cs:94 | a player is kept if and only if its Type is not 3 |
| SlpParser.KeepOccupiedAppend | Assets/Scripts/SlippiCS/SlpParser.cs:94 | filtering keeps the players in list order |
| SlpParser.SheikFix | Assets/Scripts/SlippiCS/SlpParser.cs:112-130 | internal character 0x7 sets CharacterId 0x13 and 0x13 sets 0x12 on the player at PlayerIndex and no other; a null index or null settings throws, and an index outside the list throws KeyNotFoundException |
| SlpParser.WithUpdate | Assets/Scripts/SlippiCS/SlpParser.cs:150-198 | only the pre or post slot of that player's (or follower's) updates changes, and the entry's frame number is set |
| SlpParser.BookendTarget | Assets/Scripts/SlippiCS/SlpParser.cs:245-255 | online games with a valid latest-finalized frame finalize through it, and otherwise through the current frame minus 7 |
| SlpParser.SlpParser.GetSettings | Assets/Scripts/SlippiCS/SlpParser.cs:43 | null until the settings are complete, and then Settings has fired exactly once |
| SlpParser.SlpParser.GetFrame | Assets/Scripts/SlippiCS/SlpParser.cs:76 | the entry if and only if one is stored, and it carries its own frame number |
| SlpParser.SlpParser.CompleteSettings | Assets/Scripts/SlippiCS/SlpParser.cs:272-279 | Settings fires only on the first call, and nothing else changes |
| SlpParser.SlpParser.FinalizeFrames | Assets/Scripts/SlippiCS/SlpParser.cs:258-270 | the last finalized frame becomes max(old, num), and the log gains exactly the finalized run |
| SlpParser.SlpParser.FinalizeOne | Assets/Scripts/SlippiCS/SlpParser.cs:260-269 | one loop turn announces the next frame with its entry or null |
| SlpParser.SlpParser.HandleGameEnd | Assets/Scripts/SlippiCS/SlpParser.cs:78-88 | finalizes through the latest frame when it is set and differs from the last finalized one, then stores the end and fires End |
| SlpParser.SlpParser.HandleGameStart | Assets/Scripts/SlippiCS/SlpParser.cs:90-102 | settings become the payload without empty slots; a version of at least 1.6.0 completes them; an unparsable version throws FormatException |
| SlpParser.SlpParser.HandlePostFrameUpdate | Assets/Scripts/SlippiCS/SlpParser.cs:104-135 | nothing once settings are complete; at or before the first frame the Sheik/Zelda fix-up applies; after it the settings complete |
| SlpParser.SlpParser.HandleFrameUpdate | Assets/Scripts/SlippiCS/SlpParser.cs:137-213 | the update goes into its frame's entry and that frame becomes the latest. Without bookends (version null or at most 2.2.0), Frame fires and frames are finalized through n - 1; otherwise the transfer is marked incomplete. A non-frame payload throws ArgumentException and a null frame or player index InvalidOperationException, changing nothing; an unparsable version throws FormatException after the entry is stored |
| SlpParser.SlpParser.AfterFrameUpdate | Assets/Scripts/SlippiCS/SlpParser.cs:200-212 | the bookend-less branch fires Frame and finalizes through n - 1; the other branch marks the entry incomplete |
| SlpParser.SlpParser.HandleItemUpdate | Assets/Scripts/SlippiCS/SlpParser.cs:215-228 | the item is appended to its frame's list, and the entry is created if missing |
| SlpParser.SlpParser.HandleFrameBookend | Assets/Scripts/SlippiCS/SlpParser.cs:230-256 | marks the transfer complete and fires Frame, then finalizes through the bookend target; null settings throw after the Frame notification |
| SlpParser.SlpParser.HandleCommand | Assets/Scripts/SlippiCS/SlpParser.cs:48-72 | the payload is appended to the record of handled payloads. For every event the log only grows, finalization only moves forward, no entry is removed, and complete settings stay complete. GameStart sets the settings to the payload without empty slots, throws FormatException on an unparsable version, completes the settings (firing Settings once) at 1.6.0 or later, and changes nothing else. A successful pre- or post-frame update is stored in its frame's entry, that frame becomes the latest, and after any Settings the post update fired: without bookends Frame fires and frames are finalized through the previous frame, otherwise the entry is marked incomplete. An item update is appended to its frame's items, or throws on a null frame. A bookend marks its frame complete and finalizes through the bookend target, or throws when settings are null. GameEnd finalizes through the latest frame when that differs from the last finalized one, stores the payload and fires End; only GameEnd changes the end record |
| SlpParser.SlpParser.HandleUpdate | Assets/Scripts/SlippiCS/SlpParser.cs:54-60 | a post-frame update goes through the settings step first. On success, either kind is stored in its player's (or follower's) slot of its frame, and that frame becomes the latest; the log is the settings step's Settings (if it completed them), then, without bookends, Frame and the finalized run through the previous frame; with bookends the entry is marked incomplete and nothing fires |
| SlpParser.WithUpdateRecords | Assets/Scripts/SlippiCS/SlpParser.cs:163-197 | the entry built for an update holds it in its Pre or Post slot, whatever the transfer flag |
| SlpParser.SlpParser.GetGameEnd | Assets/Scripts/SlippiCS/SlpParser.cs:74 | the stored end record, which HandleCommand sets to the last GameEnd payload |
| SlippiGame.SlippiGame.constructor | Assets/Scripts/SlippiCS/SlippiGame.cs:9-17 | a new parser in its initial state and no stored read position |
| SlippiGame.SlippiGame.Resume | Assets/Scripts/SlippiCS/SlippiGame.cs:32-44 | the callback receives a prefix of the walk's events and the parser is handed exactly their non-null payloads, in order; the callback replied false to every event but the last; the stored position becomes the walk's end, or the start of the event a settings-only call stopped on, which happens only once the settings are complete; an exception leaves it unchanged |
| SlippiGame.SlippiGame.Process | Assets/Scripts/SlippiCS/SlippiGame.cs:25-45 | nothing happens after GameEnd; an opening failure propagates with nothing changed; otherwise it behaves as Resume on the opened layout: the parser is handed the non-null payloads of the events walked, every reply but the last is false, and it stops early only in settings-only mode with the settings complete |
| SlippiGame.SlippiGame.GetSettings | Assets/Scripts/SlippiCS/SlippiGame.cs:19-23 | the outcome of Process with settingsOnly set (nothing after GameEnd, an opening failure with nothing changed, otherwise a prefix of the walk whose non-null payloads the parser is handed in order, with the stored position at its end or at the event it stopped on), then the parser's settings; every event before the last was answered "go on", a stop happens only once the settings are non-null, and a non-null result means Settings fired exactly once |
| SlippiGame.ResumeRedelivers | Assets/Scripts/SlippiCS/SlpReader.cs:217-223 | after a settings-only stop on event k, a resumed Process on the same bytes delivers event k again, then the rest |
| SlippiGame.ResumeAtEnd | Assets/Scripts/SlippiCS/SlpReader.cs:194-226 | after a complete walk, a resumed Process on the same bytes delivers nothing and stays put |
| SlippiLookupTable.GetCharacterName | Assets/Scripts/SlippiLookupTable.cs:8-93 | an id outside 0..25 gives "" |
| SlippiLookupTable.CharacterNameEmpty | Assets/Scripts/SlippiLookupTable.cs:8-93 | the name is "" if and only if the id is outside 0..25; id 14 is the placeholder "Missing_Character" |
| SlippiLookupTable.GetStageName | Assets/Scripts/SlippiLookupTable.cs:110-140 | every id has a stage name |
| SlippiLookupTable.StageFallback | Assets/Scripts/SlippiLookupTable.cs:110-140 | Final Destination if and only if the id is not 2, 3, 8, 28 or 31 |
| SlippiLookupTable.IsAnimationSupported | Assets/Scripts/SlippiLookupTable.cs:144-146 | every animation is supported |
| SlippiLookupTable.GetCharacterSpecificMapping | Assets/Scripts/SlippiLookupTable.cs:95-108 | any remapping is to SpecialSStart |
| SlippiLookupTable.OnlyLuigiRemapped | Assets/Scripts/SlippiLookupTable.cs:95-108 | a character's animation is remapped if and only if the character is Luigi (id 7) and the animation is Wait4 |
| SlippiLookupTable.GetAnimationName | Assets/Scripts/SlippiLookupTable.cs:148-1309 | ids outside 0..382, and id 6, give "" |
| SlippiLookupTable.EntryAnimations | Assets/Scripts/SlippiLookupTable.cs:1118-1127 | states 322, 323 and 324 all play Entry |
| SlippiLookupTable.SharedAnimationNames | Assets/Scripts/SlippiLookupTable.cs:194-1200 | the table is not one-to-one: 14 and 341, 24 and 42, and 347 and 348 share names |
| SlippiLookupTable.LuigiWait4 | Assets/Scripts/SlippiLookupTable.cs:1186-1188 | Luigi's state 344 (Wait4) maps to SpecialSStart |
| UbJsonSerializer.ToInt8 | Assets/Scripts/Vendor/UbJsharp/UbJsonSerializer.cs:101 | the (sbyte) cast keeps the value modulo 256 and leaves an in-range value unchanged |
| UbJsonSerializer.ToInt16 | Assets/Scripts/Vendor/UbJsharp/UbJsonSerializer.cs:107 | the (short) cast keeps the value modulo 65536 and leaves an in-range value unchanged |
| UbJsonSerializer.ToInt32 | Assets/Scripts/Vendor/UbJsharp/UbJsonSerializer.cs:113 | the (int) cast keeps the value modulo 2^32 and leaves an in-range value unchanged |
| UbJsonSerializer.SerializeSByte | Assets/Scripts/Vendor/UbJsharp/UbJsonSerializer.cs:89-92 | the Int8 marker, then one byte whose two's-complement value is the sbyte |
| UbJsonSerializer.SerializeShort | Assets/Scripts/Vendor/UbJsharp/UbJsonSerializer.cs:99-104 | up to 127 exactly [i, low byte]; above it [I] and two big-endian bytes; the bytes form one well-formed integer of at least -128 that agrees with the short modulo 256, and that is the short itself when it is at least -128 |
| UbJsonSerializer.SerializeInt | Assets/Scripts/Vendor/UbJsharp/UbJsonSerializer.cs:105-110 | from -32768 to 127 exactly [i, low byte]; up to 32767 [I] and two bytes; above it [l] and four bytes; below -32768 the short of its low 16 bits; decodes as for a short |
| UbJsonSerializer.SerializeLong | Assets/Scripts/Vendor/UbJsharp/UbJsonSerializer.cs:111-116 | from -32768 to 127 exactly [i, low byte]; then [I], [l] or [L] with 2, 4 or 8 big-endian bytes, the narrowest that holds it; from int.MinValue to -32769 the short of its low 16 bits, below int.MinValue the int of its low 32 bits; it reads back exactly if and only if it is at least -128 |
| UbJsonSerializer.NarrowingWraps | Assets/Scripts/Vendor/UbJsharp/UbJsonSerializer.cs:105-116 | the casts can wrap to a wider positive form: int and long -33768 give [I, 0x7C, 0x18] (31768), long -2147483649 gives [l, 0x7F, 0xFF, 0xFF, 0xFF] (int.MaxValue) |
| UbJsonSerializer.SameBytesAtEveryWidth | Assets/Scripts/Vendor/UbJsharp/UbJsonSerializer.cs:99-115 | sbyte, short and int give the same bytes as long for the same value |
| UbJsonSerializer.CharEncoding | Assets/Scripts/Vendor/UbJsharp/UbJsonSerializer.cs:138-142 | an ASCII char gives [C, byte]; a char up to 32767 gives Int16 and its code; a larger char gives Int8 and its low byte; a non-ASCII char decodes to its code if and only if the code is at most 32767 |
| UbJsonSerializer.SerializeChar | Assets/Scripts/Vendor/UbJsharp/UbJsonSerializer.cs:138-142 | an ASCII char gives [C, code]; any other char gives one well-formed integer that agrees with its code modulo 256 |
| UbJsonSerializer.GetLengthBytesRoundTrip | Assets/Scripts/Vendor/UbJsharp/UbJsonSerializer.cs:149-154 | a length decodes back exactly, in 2, 3 or 5 bytes at the 127 and 32767 thresholds, with a marker that gives its size, and in the same bytes as Serialize(int) |
| UbJsonSerializer.GetLengthBytes | Assets/Scripts/Vendor/UbJsharp/UbJsonSerializer.cs:149-154 | a non-negative length decodes back to itself |
| UbJsonSerializer.SerializeString | Assets/Scripts/Vendor/UbJsharp/UbJsonSerializer.cs:156-167 | the output is 1 + the length prefix + the UTF-8 bytes long |
| UbJsonSerializer.StringRoundTrip | Assets/Scripts/Vendor/UbJsharp/UbJsonSerializer.cs:156-167 | a framed string reads back as its marker, its UTF-16 length and its UTF-8 bytes |
| UbJsonSerializer.LengthCountsBytesIffAscii | Assets/Scripts/Vendor/UbJsharp/UbJsonSerializer.cs:158-161 | the length field never exceeds the number of data bytes, and equals it if and only if the text is ASCII |
| UbJsonSerializer.AsciiBytes | Assets/Scripts/Vendor/UbJsharp/UbJsonSerializer.cs:161 | ASCII text is sent as its character codes, one byte each |
| UbJsonSerializer.ULongRoundTrip | Assets/Scripts/Vendor/UbJsharp/UbJsonSerializer.cs:117-121 | a ulong up to long.MaxValue decodes as an integer; above it, it becomes a high-precision string whose length is its digit count and whose digits parse back to the value |
| UbJsonSerializer.SerializeULong | Assets/Scripts/Vendor/UbJsharp/UbJsonSerializer.cs:117-121 | up to long.MaxValue the bytes decode to the value; above it they start with the high-precision marker |
| UbJsonSerializer.Serialize | Assets/Scripts/Vendor/UbJsharp/UbJsonSerializer.cs:41-72 | every value serializes to at least one byte |
| UbJsonSerializer.ScalarMarkers | Assets/Scripts/Vendor/UbJsharp/UbJsonSerializer.cs:41-136 | bool gives T or F alone, byte gives [U, b], unsupported objects give Z alone, and floats give their marker then their bits; a ushort or uint decodes to itself, and the signed types decode to themselves if and only if they are at least -128 |
| UbJsonSerializer.SerializeNoop | Assets/Scripts/Vendor/UbJsharp/UbJsonSerializer.cs:74-77 | the no-op marker alone |
| UbJsonSerializer.SerializePrecision | Assets/Scripts/Vendor/UbJsharp/UbJsonSerializer.cs:79-82 | decimal text becomes an H string that reads back as that text's UTF-16 length and UTF-8 bytes |
| UbJsonSerializer.ListBody | Assets/Scripts/Vendor/UbJsharp/UbJsonSerializer.cs:170-177 | a list is framed by [ and ], and splitting its elements splits the bytes between the brackets at the same place |
| UbJsonSerializer.ConcatSplit | Assets/Scripts/Vendor/UbJsharp/UbJsonSerializer.cs:173-174 | concatenating parts splits at any point into the concatenations of the two halves |
| UbJsonSerializer.GetBytes | Assets/Scripts/Vendor/UbJsharp/UbJsonSerializer.cs:16-23 | a fresh array holding the marker and then the data |
| UbJsonSerializer.GetBigEndianBytes | Assets/Scripts/Vendor/UbJsharp/UbJsonSerializer.cs:33-39 | the array is the len-byte big-endian encoding of num |
| UbJsonSerializer.Reverse | Assets/Scripts/Vendor/UbJsharp/UbJsonSerializer.cs:28 | Array.Reverse in place: the array becomes its old content reversed |
| UbJsonSerializer.ToNetworkOrder | Assets/Scripts/Vendor/UbJsharp/UbJsonSerializer.cs:25-30 | the bytes are reversed exactly on a little-endian machine |
| UbJsonSerializer.SerializeFloating | Assets/Scripts/Vendor/UbJsharp/UbJsonSerializer.cs:128-136 | a float or double gives the same bytes on either byte order: its marker and its bits big-endian |
| UbJsonSerializer.SerializeArray | Assets/Scripts/Vendor/UbJsharp/UbJsonSerializer.cs:170-177 | appending each element's bytes between [ and ] gives Serialize of the list |
| UbJsonSerializer.SerializeObject | Assets/Scripts/Vendor/UbJsharp/UbJsonSerializer.cs:179-189 | appending each key's then value's bytes between { and } gives Serialize of the dictionary, in enumeration order |

## Left out

- File I/O: the FileStream, seeks and the input-source checks are not modelled. The file is the `seq<byte>` it holds at the time of a call, and Size() is its length. A read past the end leaves the buffer's old bytes in place, as a short read does. The file is not assumed to stay the same between Process calls.
- Float values: a float field is its raw 32-bit pattern. BitConverter.ToSingle and float arithmetic are not modelled.
- Shift-JIS: decoding the name-tag bytes is a function parameter. The encoding itself is not modelled.
- Version.Parse is modelled only for the "major.minor.build" form. Two- and four-component versions, which System.Version also accepts, are treated as parse failures.
- .NET events: the four events are an appended notification log of snapshots. Handlers that run on them, and mutate shared entries through references, are not modelled.
- SlippiGame.SlippiGame.GetSettings: the stop on the first event after which the settings are complete is stated through the callback's replies (each reply before the last is false). What a reply means is stated per call on `SlpReader.ProcessCallback.Invoke`; the parser states between events are not kept, so it is not restated in terms of them.
- SlippiGame.SlippiGame.Resume: does not restate the parser's `Grew` property across the whole walk. It is stated per event on `SlpReader.ProcessCallback.Invoke`.
- SlippiGame.SlippiGame.Process: does not restate `Grew` across the walk either, for the same reason.
- SlpReader.IterateEvents: does not restate `Grew` across the loop; each callback call states it.
- SlippiGame.ResumeRedelivers: requires the whole event region to lie inside the file. Otherwise leftover buffer content from the earlier call can differ.
- SlippiGame.ResumeAtEnd: requires the region to lie inside the file, for the same reason.
- SlippiLookupTable.GetAnimationName: the ensures states only that ids outside the table, and id 6, give "". The converse holds but is not proved: a proof over all 383 entries is too costly for the solver.
- SlippiLookupTable.GetStageName: the Debug.Log and Debug.LogWarning calls are dropped (also in GetAnimationName).
- UbJsonSerializer.Decimal: decimal.ToString() text is taken as given, so the value's formatting is not modelled.
- UbJsonSerializer.Utf16Length: strings are sequences of Unicode scalar values, so lone surrogates, which a .NET string may hold, are not modelled.
- UbJsonSerializer.GetBigEndianBytes: requires len of at most 8, which covers the lengths used (2, 4 and 8). For longer lengths C# masks the shift count, and that is not modelled.
- UbJsonSerializer.Serialize: each object is classified into one Value case, following the dispatch order. Enumerating an arbitrary IEnumerable or IDictionary is a given sequence.
- UbJsonArrayDeserializer.cs and UbJsonReaderDeserializer.cs are not part of this model: they read UBJSON rather than write it, and lie outside the replay decoder.
- UbJsonCommon.cs, IUbJsonDeserializer.cs, SlippiModels.cs, SlippiCSTest.cs and SlippiUbjsonTest.cs are not part of this model; only the UBJSON marker constants are taken over.
- The Unity scene, animation, UI, file-watching and JSON plumbing files are not part of this model (SlippiPlayer.cs, SlippiParser.cs, SlippiVisualizerViewController.cs, SlippiVisualizerUI.cs, DynamicallyFireAnimations.cs, SlippiFileWatcher.cs, MeleeMetadataWatcher.cs, SlippiLocalFileManager.cs).
- Concurrency: there is no locking in the code and none is modelled.
- Field types: several fields that Types.cs declares `int?` are filled by SlpReader through its float, uint32 or bool readers. The model gives each field the type of the reader that fills it.
- SlpReader.OpenSlpFile: requires a file of at most int.MaxValue bytes, and so do Layout and RawDataLength. The code truncates a longer file's length with an unchecked `(int)` cast, which is not modelled.
