# Nexus Hub save formats and CARE economy in Dafny

This project models the data core of Nexus Hub Adventure, a browser game that
rewards self-care with a currency called CARE and lets players raise a dragon.
It also proves properties of that model. The modelled parts are:

- **USER_SAVE** (`UserSaveEncoder`): a fixed-size binary record of a user's
  balances, dragon and lifetime statistics for an NFC tag. It holds a magic
  number, big-endian fields and a CRC-16 trailer. Its Base64 text form and
  `loadUserSave` are modelled too.
- **CAMPAIGN_SAVE**: the plain-text save block of a tabletop campaign
  (`formatCampaignSaveCode`, `generateTLDR`) and the regular-expression
  parser that reads the name and the system back (`parseCampaignSaveCode`).
- **CARE persistence**:
  - the 12-character user hash `makeHash`;
  - loading the CARE balance and the dragon from the user document, with a
    default for each missing field;
  - saving them back;
  - feeding, playing and self-care logging.
- **Dragon marketplace**: the standalone page's balance and dragon, its
  two-item catalogue, buying and the NFC care-tap bonus.
- **Achievements**: the badge list of the profile page.
- **Nexus agent**: the `calculate_care` tool of the Python agent, which turns
  an action name into an earn, cost or unknown-action message.

Modules follow the source: `UserSave` and `UserSaveProofs` (with `Bytes`,
`SaveFields`, `Crc16`, `Base64`, `Utf8`, `DragonName`), `CampaignSave`,
`CampaignParse`, `CarePersistence`, `DragonMarketplace`, `Achievements` and
`NexusAgent`. `Js` holds the JavaScript idioms used throughout, and
`UserDoc` holds the user document they read. The JavaScript idioms are:

- `x || d`, where 0, "" and a missing value are falsy;
- number-to-string conversion;
- `split('\n')`;
- ASCII `toLowerCase`;
- `Math.min`.

Everything the code reaches outside itself becomes a parameter:

- SHA-256 is a function parameter returning 32 bytes.
- `Date.now()` is a millisecond count.
- Today's ISO date is a string.
- A rendered `toLocaleDateString()` is an optional string.

Where the layout comment at the top of user-save.js and the code disagree,
the model follows the code:

- The comment promises a 63-byte record with the checksum as its last two
  bytes.
- The code writes 62 bytes of fields into a 63-byte buffer and tries to
  store the checksum at offset 62, which throws.
- The checksum covers bytes 0 to 60 only.

The findings below follow from these.

## Model

| member | source | states |
|---|---|---|
| UserSave.GenerateUserHash | user-save.js:57-62 | the user hash is eight bytes, the first eight of the SHA-256 digest of the UTF-8 form of `email:uid` |
| UserSave.EggStatusCode | user-save.js:117-118 | the status byte is 1 exactly for "incubating", 2 exactly for "hatched", and 0 for anything else or nothing |
| UserSave.StatusName | user-save.js:197-200 | the decoded status is always one of the three names; "incubating" exactly for code 1, "hatched" exactly for code 2 |
| UserSave.DragonIdField | user-save.js:124-132 | the dragon-id field is eight bytes wide and is left as zeros exactly when the id is missing or empty |
| UserSave.CreatedSeconds | user-save.js:144 | a non-zero stored creation second is kept; a missing or zero one becomes the clock's whole seconds |
| UserSave.NameBytes | user-save.js:134-137 | the name field is ten bytes; only the encoder as written can fail, and then with a RangeError; the corrected layout uses the truncating encoder |
| UserSave.EncodeToBinary | user-save.js:88-163 | every failure of the encoder is a RangeError, and a produced record has exactly the buffer's size |
| UserSave.ReadFields | user-save.js:177-227 | the field reads succeed exactly when the buffer has at least 62 bytes, yielding the values at their offsets; otherwise RangeError |
| UserSave.DecodeFromBinary | user-save.js:166-250 | a buffer shorter than 4 bytes is a RangeError; a wrong magic number is a mismatch before anything else; a missing checksum is a RangeError; otherwise it is accepted exactly when the stored checksum equals the CRC of the protected bytes |
| UserSave.BinaryToBase64 | user-save.js:253-259 | the text is 4·⌈n/3⌉ characters and decodes back to exactly the input bytes |
| UserSave.LoadUserSave | user-save.js:323-338 | text that is not Base64 fails with InvalidCharacter; otherwise the result is the record decoder's verdict on the decoded bytes |
| Base64.Decode | user-save.js:262-269 | every decoding failure is InvalidCharacter |
| Base64.DecodeAcceptsStrict | user-save.js:262-269 | the modelled strict RFC 4648 decoder accepts a text exactly when its length is a multiple of four and every character is a Base64 symbol, except a final `=` or `==` |
| Base64.DecodeEncode | user-save.js:252-269 | decoding the Base64 text of any byte string gives the bytes back |
| Base64.EncodeLength | user-save.js:253-259 | the Base64 text of n bytes has 4·⌈n/3⌉ characters |
| Crc16.CalculateCrc16 | user-save.js:76-85 | the bit-serial loop computes the reflected CRC-16 (init 0xFFFF, polynomial 0xA001) of the data, a value below 2^16 |
| Crc16.FeedByte | user-save.js:79-82 | one byte's eight shift-and-xor steps give the byte update of the reference CRC and stay below 2^16 |
| Crc16.CrcAppend | user-save.js:76-85 | the checksum of a concatenation is the checksum of the second part started from that of the first |
| Crc16.SingleByteChangeDetected | user-save.js:76-85 | two inputs of the same length differing in exactly one byte have different checksums |
| Bytes.U16RoundTrip | user-save.js:160 | a 16-bit big-endian write reads back as the value modulo 2^16 |
| Bytes.U32RoundTrip | user-save.js:109-114 | a 32-bit big-endian write reads back as the value modulo 2^32 |
| Bytes.GetUint8 | user-save.js:197 | an 8-bit read succeeds exactly inside the buffer, giving the byte; otherwise RangeError |
| Bytes.GetUint16 | user-save.js:229 | a 16-bit read succeeds exactly when both bytes are inside the buffer, giving their big-endian value; otherwise RangeError |
| Bytes.GetUint32 | user-save.js:171 | a 32-bit read succeeds exactly when all four bytes are inside the buffer, giving their big-endian value; otherwise RangeError |
| Bytes.Store | user-save.js:105 | a typed-array `set` succeeds exactly when the data fits at the offset; then only those bytes change |
| Bytes.Slice | user-save.js:230 | `slice` clamps both ends to the buffer: inside the buffer it is the plain sub-sequence, and with only the end past the buffer it is the rest of the buffer from the start |
| SaveFields.WriteField | user-save.js:96-97 | a field write succeeds exactly when the field fits or writes nothing, and changes only its own bytes |
| SaveFields.WriteFields | user-save.js:93-155 | the sequence of writes succeeds exactly when every field fits at its running offset, and keeps the buffer's length |
| SaveFields.WriteFieldsImage | user-save.js:89-155 | writing the fields into a zero-filled buffer yields the fields' bytes back to back followed by the untouched zeros |
| SaveFields.FieldAt | user-save.js:93-155 | field k occupies the bytes from the sum of the earlier widths for its own width |
| Utf8.EncodeChar | user-save.js:69-70 | a character's UTF-8 form has its width, starts with an ASCII byte exactly for one-byte characters, and continues with continuation bytes |
| Utf8.DecodeEncode | user-save.js:210 | the WHATWG decoder reads the UTF-8 form of any string back as the string |
| Utf8.TextDecode | user-save.js:210 | `TextDecoder.decode` never yields more characters than bytes |
| Utf8.Utf16PrefixLength | user-save.js:70 | `slice(0, n)` keeps at most n UTF-16 units, and keeps the whole string when it is that short |
| DragonName.EncodeDragonName | user-save.js:65-73 | a missing or empty name is ten zero bytes; otherwise it succeeds exactly when the UTF-8 form of the first ten UTF-16 units fits in ten bytes, storing it zero-padded, and fails with RangeError otherwise |
| DragonName.DecodeName | user-save.js:208-211 | a decoded name, when present, is non-empty and contains no NUL |
| DragonName.NameRoundTrip | user-save.js:65-73 | a name the encoder as written accepts reads back as its first ten UTF-16 units, without NULs, or null when nothing is left |
| DragonName.NameHead | user-save.js:65-73 | the kept bytes are a prefix of the name's UTF-8 form, at most ten bytes long, and the whole form when it fits |
| DragonName.EncodeDragonNameTruncated | user-save.js:65-73 | the corrected encoder never fails: a missing or empty name is ten zeros, a UTF-8 form that fits is stored zero-padded, and a longer one as its first ten bytes |
| DragonName.DecodeNamePadded | user-save.js:208-211 | zero padding after a field's bytes does not change the name read back, since 0x00 never continues a UTF-8 sequence |
| DragonName.TruncatedNameRoundTrip | user-save.js:65-73 | a name stored by the corrected encoder reads back as the decoding of the first ten bytes of its UTF-8 form; when that form fits, as the whole name without NULs, or null when nothing is left |
| DragonName.AsciiNameStoredVerbatim | user-save.js:65-73 | an ASCII name of one to ten characters without NUL is stored byte for byte and reads back unchanged |
| DragonName.AccentedNameThrows | user-save.js:70-71 | six accented letters (twelve UTF-8 bytes) make the encoder as written throw a RangeError |
| DragonName.AccentedNameTruncated | user-save.js:70-71 | the corrected encoder stores six accented letters as their first five |
| DragonName.SplitCharacterReadsReplacement | user-save.js:208-211 | a cut inside a character reads back as U+FFFD: `a` and six accented letters read back as `a`, four accented letters and U+FFFD |
| UserSaveProofs.FieldOffsets | user-save.js:93-155 | the fifteen fields start at offsets 0, 4, 5, 13, 17, 21, 25, 26, 27, 35, 45, 46, 50, 54 and 58, and fill 62 bytes |
| UserSaveProofs.HeaderCommentMiscount | user-save.js:15-39 | the layout comment's groups agree with the writes except the dragon status, which is 21 bytes, not 20, so the record needs 64 bytes, not 63 |
| UserSaveProofs.EncodeAlwaysThrows | user-save.js:89-160 | the encoder as written throws a RangeError for every user document, clock and hash function |
| UserSaveProofs.EncodeCorrected | user-save.js:89-160 | the corrected encoder always produces the 62 field bytes followed by their CRC-16 |
| UserSaveProofs.DecodeSealed | user-save.js:166-250 | any 62 bytes starting with the magic number and sealed with their checksum are accepted and decode to the values they hold |
| UserSaveProofs.ReadBackValues | user-save.js:177-227 | the fields of any value record read back at their offsets as the values reduced to their widths |
| UserSaveProofs.StatusReadBack | user-save.js:197-200 | the status code written reads back as the status written when it is one the format knows, and as "none" otherwise |
| UserSaveProofs.RoundTrip | user-save.js:88-250 | a corrected record always decodes to the document's values reduced to their widths, with the name read from the first ten bytes of its UTF-8 form and both times in milliseconds |
| UserSaveProofs.LoadRoundTrip | user-save.js:323-338 | loading the Base64 text of a corrected record gives the same decoded record |
| UserSaveProofs.NotBase64Rejected | user-save.js:323-338 | loading `not-base64!!` fails with InvalidCharacter under either layout |
| UserSaveProofs.ByteSixtyOneUnprotected | user-save.js:228-235 | as written, changing byte 61 of an accepted record is still accepted and silently changes the lifetime session count |
| UserSaveProofs.SingleByteChangeRejected | user-save.js:228-235 | with the corrected layout, changing any one of the 62 field bytes of an accepted record is rejected: as a magic mismatch in bytes 0 to 3, as a checksum mismatch elsewhere |
| UserSaveProofs.AsWrittenSingleByteChangeRejected | user-save.js:228-235 | as written, changing any one of bytes 4 to 60 of an accepted record is still rejected as a checksum mismatch |
| UserSaveProofs.AsWrittenSealed | user-save.js:166-250 | as written, 62 bytes starting with the magic number and sealed with the checksum of their first 61 are accepted |
| UserSaveProofs.AsWrittenAcceptsSome | user-save.js:166-250 | the decoder as written accepts some 64-byte record |
| Js.JoinSplitLines | campaign-save.js:152 | joining the pieces of `split('\n')` with newlines gives the string back |
| CampaignSave.ActionLines | campaign-save.js:142-147 | no lines without actions; otherwise the `Actions:` line and one indented dash line per action, in order |
| CampaignSave.RecapLines | campaign-save.js:149-156 | no lines for a missing or empty recap; otherwise the `Recap:` line and one indented line per line of the recap |
| CampaignSave.RecapRecoverable | campaign-save.js:149-156 | removing the indent from the recap lines and joining them with newlines gives the recap back |
| CampaignSave.SessionLines | campaign-save.js:134-157 | a session block is framed by empty lines and holds its number, its date or "Unknown date", its CARE with `+`, then its action and recap lines |
| CampaignSave.SessionBlocks | campaign-save.js:133-138 | one block per session, numbered from the count of sessions down |
| CampaignSave.SessionNumbering | campaign-save.js:138 | the first session listed is numbered with the session count and the last one is `[Session 1]` |
| CampaignSave.BuildSessionsText | campaign-save.js:132-158 | the loop's text is the lines of all session blocks in order, each ending in a newline |
| CampaignSave.DragonLines | campaign-save.js:161-172 | hatched shows name (or "Unnamed") and level (or 1); incubating shows sessions left (or 10); anything else shows the egg requirement |
| CampaignSave.SessionCount | campaign-save.js:228 | the count ends in `sessions` exactly when it is not one |
| CampaignSave.LastPlayed | campaign-save.js:230-236 | the last-played line is present exactly when there is a session, and shows the first session's date or "recently" |
| CampaignSave.DragonSummary | campaign-save.js:238-242 | the dragon line of the TLDR is present exactly for a hatched or incubating egg |
| CampaignSave.TldrLines | campaign-save.js:223-247 | the TLDR lines are the name and system line, the session count and CARE line, the last-played line when there is a session, the dragon line when there is one, and the ready line last |
| CampaignSave.GenerateTldr | campaign-save.js:223-247 | the TLDR text is those lines appended in order, each ending in a newline, with the last-played line only when there is a session and the dragon line only for a hatched or incubating egg |
| CampaignSave.PreambleLines | campaign-save.js:179-183 | the block opens with the header line, a 70-character `=` rule, an empty line, `Campaign Info:` and the name line |
| CampaignSave.InfoLines | campaign-save.js:184-191 | the info lines are the system line, a description line exactly when there is a description, the `Total CARE Earned` line with the CARE or 0, the creation date or "Unknown", the last session date or "No sessions yet", and an empty line |
| CampaignSave.BodyLines | campaign-save.js:193-218 | the rest of the block ends with a 70-character `=` rule |
| CampaignSave.BodyLinesText | campaign-save.js:193-218 | the text of the rest of the block is the sessions section, the dragon section, the context notes, the TLDR section and the restoration footer, in that order |
| CampaignSave.SaveCodeLines | campaign-save.js:178-218 | the block's lines are the preamble, then the system line, then the rest |
| CampaignSave.SaveCodeEndsWithRule | campaign-save.js:218 | the block's last line is the 70-character `=` rule |
| CampaignSave.FormatCampaignSaveCode | campaign-save.js:178-220 | the save code is the text of the preamble and info lines, then the sessions, dragon, notes, TLDR and footer sections in the order they are appended |
| CampaignSave.SessionsInSaveCode | campaign-save.js:193-199 | the save code contains the sessions section, holding every session block, directly followed by the dragon section |
| CampaignSave.TldrInSaveCode | campaign-save.js:207-218 | the save code ends with the TLDR section, holding the text of `generateTLDR`, and then the restoration footer |
| CampaignSave.CareInSaveCode | campaign-save.js:188 | the save code holds the `Total CARE Earned` line, with the campaign's CARE or 0, as a line of its own |
| CampaignSave.MissingCareShowsZero | campaign-save.js:188 | a missing or zero `careEarned` shows as `- Total CARE Earned: 0` |
| CampaignSave.FormatSplitsAtHeader | campaign-save.js:179 | the save code begins with the header line and a newline |
| CampaignSave.FormatSplitsAtSystem | campaign-save.js:184 | after the five preamble lines the save code continues with the `- System:` line |
| CampaignParse.DotRun | campaign-save.js:286 | `.+` runs to the next line terminator or the end of the text, and the run holds none |
| CampaignParse.Backtrack | campaign-save.js:286 | the greedy group gives back characters until the header's tail matches: the longest group followed by the tail, or none |
| CampaignParse.HeaderAt | campaign-save.js:286 | a header match at a position starts with `SAVE_CODE: ` and captures a single-line name |
| CampaignParse.SystemAt | campaign-save.js:292 | a system match at a position exists exactly when `- System: ` is followed by a non-terminator, and captures the rest of that line |
| CampaignParse.HeaderSearch | campaign-save.js:286-289 | `match` reports the leftmost position where the header matches, or none when it matches nowhere |
| CampaignParse.SystemSearch | campaign-save.js:292-295 | `match` reports the leftmost position where the system pattern matches, or none when it matches nowhere |
| CampaignParse.ParseCampaignSaveCode | campaign-save.js:272-300 | the name is absent exactly when the header matches nowhere, and the system exactly when its pattern does; captured values are non-empty single lines; the other fields stay empty |
| CampaignParse.HeaderCapturesName | campaign-save.js:286-288 | a text opening with a well-formed header line yields that line's name |
| CampaignParse.SystemCapturesValue | campaign-save.js:292-294 | the first `- System:` line after lines without one yields its value |
| CampaignParse.NameRoundTrip | campaign-save.js:179-289 | parsing a formatted save code gives back the campaign's name, when the name is one non-empty line |
| CampaignParse.SystemRoundTrip | campaign-save.js:184-295 | parsing a formatted save code gives back the campaign's system, when it is one non-empty line and the preamble does not contain `- System: ` |
| CampaignParse.NoHeaderNoName | campaign-save.js:286-289 | a text without `SAVE_CODE: ` has no name |
| CarePersistence.MakeHash | care-persistence.js:17-19 | the hash is the lower-cased first eight characters of the uid then the first four of the email; twelve characters when both are long enough; no capitals |
| CarePersistence.HashIgnoresCase | care-persistence.js:17-19 | lower-casing the email or the uid first does not change the hash |
| CarePersistence.HashDependsOnPrefixes | care-persistence.js:17-19 | two users with the same uid and email prefixes have the same hash |
| CarePersistence.HashIsLowerCase | care-persistence.js:17-19 | lower-casing the hash changes nothing |
| CarePersistence.LoadCareAndDragon | care-persistence.js:41-50 | each loaded stat is the stored value when it is truthy, else its default: 0 CARE, status "none", no name, level 1, hunger, mood and health 100, ten sessions |
| CarePersistence.LoadIsLoaded | care-persistence.js:41-50 | a loaded state holds a dragon with a non-empty status, a non-empty name or none, and non-zero level, stats and sessions |
| CarePersistence.SaveCareAndDragon | care-persistence.js:114-124 | saving writes the care and dragon fields and leaves every other field of the document unchanged |
| CarePersistence.SaveThenLoad | care-persistence.js:41-122 | loading what was saved from a loaded state gives that state back |
| CarePersistence.LoadSaveLoad | care-persistence.js:41-122 | load, save and load again is the same as one load |
| CarePersistence.Raise | care-persistence.js:149 | `Math.min(100, stat + amount)`: the sum when it stays within 100, else exactly 100; never lowers a stat within range |
| CarePersistence.RaiseTwice | care-persistence.js:149 | raising by a and then by b is raising by a + b |
| CarePersistence.FeedDragon | care-persistence.js:143-156 | without a hatched dragon nothing changes; with one, hunger is raised by 20 to at most 100 and CARE grows by 10 |
| CarePersistence.PlayDragon | care-persistence.js:158-171 | without a hatched dragon nothing changes; with one, mood is raised by 15 to at most 100 and CARE grows by 8 |
| CarePersistence.LogSelfCare | care-persistence.js:173-176 | self-care adds 25 CARE whatever the dragon, and leaves the dragon alone |
| CarePersistence.FeedRepeatedly | care-persistence.js:143-156 | feeding a hatched dragon n times earns 10·n CARE and raises hunger by 20·n capped at 100 |
| CarePersistence.RunKeepsDragon | care-persistence.js:143-189 | no sequence of feeds, plays and self-care hatches or unhatches the dragon, and without a hatched dragon it stays as it is |
| CarePersistence.RunEarns | care-persistence.js:143-189 | the balance after any sequence is the start plus 25 per self-care and, with a hatched dragon, 10 per feed and 8 per play |
| CarePersistence.RunKeepsStatsInRange | care-persistence.js:143-189 | hunger and mood within 100 stay within 100 and never fall |
| DragonMarketplace.FeedDragon | dragon-marketplace.js:26-32 | feeding raises hunger by 20 to at most 100 and adds 10 CARE whatever the stage and with no daily cap; nothing else changes |
| DragonMarketplace.BuyItem | dragon-marketplace.js:49-55 | a purchase the balance covers deducts the price; any other purchase changes nothing |
| DragonMarketplace.CareTap | dragon-marketplace.js:60-63 | the care tap adds 25 CARE and leaves the dragon alone |
| DragonMarketplace.CataloguePricesPositive | dragon-marketplace.js:35-38 | every catalogue price is positive |
| DragonMarketplace.BuyNeverOverdraws | dragon-marketplace.js:49-55 | from a non-negative balance a purchase at any price leaves a non-negative balance |
| DragonMarketplace.RunInvariant | dragon-marketplace.js:26-63 | from a non-negative balance, any button sequence keeps it non-negative and within what feeds and taps earned, and never changes stage, mood or health |
| DragonMarketplace.RunFromInitial | dragon-marketplace.js:4-63 | from the page's initial state the dragon stays a full, happy, healthy egg and the balance stays between 0 and the earnings |
| DragonMarketplace.RunWithoutBuying | dragon-marketplace.js:26-63 | without purchases the balance grows by exactly 10 per feed and 25 per tap |
| Achievements.Pushed | profile.js:125-151 | after n checks the list holds exactly the earned badges among the first n, in catalogue order, without repeats |
| Achievements.GenerateAchievements | profile.js:122-151 | a badge is listed exactly when the document earns it, and the badges appear in catalogue order |
| Achievements.ShowAchievements | profile.js:153-168 | the placeholder line is shown exactly when no badge is earned; otherwise the earned badges |
| Achievements.AchievementsMonotone | profile.js:125-143 | more CARE and more sessions never take a badge away |
| Achievements.CareLadder | profile.js:126-129 | CARE Monarch implies CARE Collector, which implies First Century |
| Achievements.EarlyAdopterBySeconds | profile.js:146-151 | with nanoseconds in range, a join time is before 2025-02-01 exactly when its seconds are |
| NexusAgent.Normalise | nexus-agent/nexus_agent_v0.6.py:30 | the normalised action has the same length, no spaces and no capitals; each space becomes `_` and each letter is lower-cased |
| NexusAgent.NormaliseIdempotent | nexus-agent/nexus_agent_v0.6.py:30 | normalising twice is normalising once |
| NexusAgent.Lookup | nexus-agent/nexus_agent_v0.6.py:32-33 | a value is found exactly when the key is in the table, and the found pair is in the table |
| NexusAgent.Classify | nexus-agent/nexus_agent_v0.6.py:20-37 | an action is unknown exactly when its normal form is not a table key; an earning is a positive table value, a cost a non-positive one |
| NexusAgent.ClassifyNormalised | nexus-agent/nexus_agent_v0.6.py:30-33 | an action and its normal form are classified alike |
| NexusAgent.TableEarnings | nexus-agent/nexus_agent_v0.6.py:20-25 | self_care earns 10, help_others 15, complete_quest 25, feed_dragon 5, rest 8 |
| NexusAgent.TableCosts | nexus-agent/nexus_agent_v0.6.py:26-27 | buy_egg costs 50 and unlock_story 20 |
| NexusAgent.CalculateCare | nexus-agent/nexus_agent_v0.6.py:9-39 | a known action's message is its earns or costs wording, then exactly as many characters as the amount's decimal digits, then ` CARE`, and the amount reads back from it as the table's magnitude; an unknown action's message is the unknown-action wording followed by the known actions joined by `, `; an amount reads back exactly when the action is known |
| NexusAgent.KnownActionsInOrder | nexus-agent/nexus_agent_v0.6.py:20-28 | the known actions are exactly the seven table keys, in table order |
| NexusAgent.MessageParts | nexus-agent/nexus_agent_v0.6.py:34-39 | each message starts with its wording; a known action's message is as long as the wording, the amount's digits and ` CARE` together, and the amount reads back from it; no amount reads back from the unknown-action message |

## Left out

- SHA-256 itself is not modelled; it is a parameter returning 32 bytes.
- UserSave.EncodeToBinary: its contract states only the error kind and the length. UserSaveProofs.EncodeAlwaysThrows and UserSaveProofs.EncodeCorrected state what each layout actually produces.
- Base64.Decode: its contract states only the error kind. Base64.DecodeEncode states the round trip, and Base64.DecodeAcceptsStrict states which texts it accepts.
- Utf8.TextDecode: its contract states only the length bound. The decoding itself is stated by Utf8.DecodeEncode, DragonName.DecodeNamePadded and DragonName.TruncatedNameRoundTrip.
- CampaignParse.HeaderAt: its contract states only the literal prefix and a single-line capture. The date and version tail and the backtracking are in its body. CampaignParse.HeaderCapturesName states the match on a well-formed header line.
- The Firestore reads and writes (`getDoc`, `updateDoc`) are left out. So are the auth listener, the DOM rendering, `alert`, `console` and the async machinery. What they read or write is an argument or a result.
- `generateUserSave`, `writeUserSaveToNFC`, `generateCampaignSave` and `generateCompressedCampaignSave` only fetch documents and call the modelled functions, so they are not modelled.
- Numbers are integers. JavaScript numbers are doubles, and three cases of that are not modelled:
  - `setUint32` and `setUint8` truncate a fractional balance or count (user-save.js:109);
  - NaN is written as 0;
  - integers above 2^53 are not exact.
- A field that is null and a field that is missing are both `None`. They differ in two places:
  - `${email}:${uid}` (user-save.js:58) renders null as `null`, while Js.Render(None) gives `undefined`;
  - `saveCareAndDragon` writes `dragonName: null` (care-persistence.js:117), which the model reads back as a missing name.
- UserSave.Values: `encodeToBinary` reads the clock twice, once for a defaulted `createdAt` and once for `lastSync` (user-save.js:144-145). The model reads it once (`nowMs`), so a defaulted `createdAt` always equals `lastSync`, where the source's two reads can fall a second apart.
- The version byte is never rejected: a mismatch only logs a warning, so the decoder reads on.
- Base64.Decode: the model is stricter than `atob`. It does not accept missing padding, whitespace or other lenient forms. Non-zero padding bits are discarded, as `atob` does.
- Strings are sequences of Unicode scalar values, so a lone surrogate in an input string cannot be represented. The UTF-16 unit count used by `name.slice(0, 10)` is modelled, including a surrogate pair cut in half.
- Js.Lower folds ASCII letters only. JavaScript's `toLowerCase` and Python's `lower()` also fold other scripts, for example the Kelvin sign U+212A to `k`.
- NexusAgent.Normalise folds ASCII letters only, for the same reason as Js.Lower.
- CarePersistence.MakeHash counts characters, not UTF-16 units. It also takes the email as a string: a missing email makes `substring` throw, and that case is not modelled.
- `createFallbackUserDoc` (care-persistence.js:68-102) is not modelled. Neither is the `lastLogin` server timestamp written by `saveCareAndDragon`.
- CarePersistence.LogSelfCare models the balance change only. Its extra `updateDoc` of `lifetimeActions` and `careBalance` is left out; it writes the same balance that the save then writes.
- The undefined `window.userCare` before the first load is not modelled. In JavaScript it makes `+=` produce NaN.
- The marketplace's `loadUserData` and `updateFirestore` are empty stubs in the source, so they are not modelled.
- The `lines` split at campaign-save.js:276 is never used, so it is not modelled.
- The dates `toLocaleDateString()` renders are taken as given strings, because that output is locale-dependent.
- The LLM agent loop of nexus_agent_v0.6.py (lines 41-80) is not modelled. Nor are auth.js and dashboard.js: dashboard.js's `makeHash` has the same body as the modelled one.
- Achievements.EarlyAdopterBySeconds assumes a Firestore Timestamp. The `seconds * 1000` fallback for a plain object without `toDate` is not modelled; it gives the same result when the nanoseconds are below one million.

## Findings

| source | as written | input that shows it | evidently intended | confidence | as-written member | corrected member |
|---|---|---|---|---|---|---|
| user-save.js:89-160 | a 63-byte buffer holds 62 bytes of fields, and the checksum is written at offset 62, past its last whole 16-bit slot, so the write throws | any user document: `setUint16(62, …)` on a 63-byte buffer throws RangeError | a 64-byte record with the checksum in bytes 62-63 | not executed | UserSaveProofs.EncodeAlwaysThrows | UserSaveProofs.RoundTrip |
| user-save.js:158 | the checksum covers bytes 0 to 60 only | change byte 61 (the low byte of the lifetime session count) of an accepted record | the checksum covers all 62 field bytes | not executed | UserSaveProofs.ByteSixtyOneUnprotected | UserSaveProofs.SingleByteChangeRejected |
| user-save.js:70-71 | the name is cut to ten UTF-16 units, not to ten bytes, before it is copied into a ten-byte field | the name "éééééé", whose six letters take twelve UTF-8 bytes, makes `buffer.set` throw RangeError | cut the UTF-8 form to its first ten bytes, the width of the field | not executed | DragonName.AccentedNameThrows | DragonName.TruncatedNameRoundTrip |
