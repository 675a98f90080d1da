# AudioPlaybackConnector: the YMO translation format and the settings rules

This project is a Dafny model of three parts of AudioPlaybackConnector. Each
part comes with proofs about what it does.

- **The YMO reader** (`I18n.hpp`, module `I18n`).
  - `LoadTranslateData` reads the compiled translation resource: a
    little-endian 16-bit record count, then 6-byte `(hash, offset)` records,
    then NUL-terminated UTF-16LE strings. It builds the hash → string table
    from them. Each record is checked against the buffer size and alignment,
    and for a NUL code unit, before its string is admitted.
  - `Translate` hashes a string with FNV-1a and looks it up, caching the
    answer per pointer.
  - `TranslateContext` looks up the `ctxt "\004" msgid` key that the `C_`
    macro builds.
  - The class `I18n.Translator` holds the table and the cache.
- **The YMO writer** (`translate/po2ymo.py`).
  - Module `Fnv`: `fnv1a_32`.
  - Module `PoParser`: `parse_po` and its `flush_entry`. This is the line
    state machine over GNU gettext PO files.
  - Module `Po2Ymo`: `po2ymo`. It filters the entries, builds the lookup key,
    fills the `units` dict, and writes the header, the records with their
    running offsets, and the payloads.
- **The settings rules** (`SettingsUtil.hpp`, module `SettingsUtil`):
  - where the settings file lives, and which file is loaded;
  - the defaults;
  - the bounded read loop of `LoadSettings`, and how the parsed JSON object
    updates the settings;
  - the exact text `BuildPrettySettingsJson` produces.

  The class `SettingsUtil.Settings` holds the three globals.

The module `RoundTrip` connects the writer and the reader:
- every record of an image `po2ymo` writes passes the loader's checks;
- the loaded table has exactly the written dict's keys;
- looking a key up finds the `msgstr` of the last kept PO entry with that
  key's hash, up to its first NUL (`RoundTrip.EndToEnd`).

The modules `Bytes` (little-endian fields, UTF-16) and `Fnv` are shared by
both sides. `Seqs` and `Results` hold generic slice lemmas and the `Option`
type.

When a hash appears twice, `LoadTranslateData` keeps the first accepted
record, because `emplace` does not overwrite an existing key (I18n.hpp:59-84).
The model states this in `I18n.TableAfter`, `I18n.TableAfterKeys` and
`I18n.FirstAcceptedWins`. The writer never produces a duplicate hash, because
the Python dict replaces the payload in place.

How the environment is modelled:
- Library and operating-system calls are parameters of the model:
  - `unquote` for `ast.literal_eval`;
  - `appData` for `_wgetenv(L"APPDATA")`;
  - `modulePath` for `GetModuleFsPath`;
  - `pathExists` for `fs::exists` without error;
  - `open` for `CreateFileW` together with the file's content;
  - `parse` for `Utf8ToUtf16` together with `JsonObject::Parse`;
  - `stringify` for `JsonValue::CreateStringValue(..).Stringify()`.
- A `const wchar_t*` is the datatype `I18n.Ptr`. It is either a literal with
  its own identity, or a byte offset into the loaded resource.
- FnvHash.hpp is not part of this model. The reader uses the same FNV-1a
  definition as the writer (`Fnv.Fnv1a32`).

## Model

| member | source | states |
|---|---|---|
| Bytes.ReadU16 | I18n.hpp:23-26 | the two bytes at `at`, low byte first; the value is below 2^16 |
| Bytes.ReadU32 | I18n.hpp:27-33 | the four bytes at `at`, least significant first; the value is below 2^32 |
| Bytes.U16Le | translate/po2ymo.py:113 | `to_bytes(2, "little")` is two bytes |
| Bytes.U32Le | translate/po2ymo.py:119 | `to_bytes(4, "little")` is four bytes |
| Bytes.ReadU16OfU16Le | I18n.hpp:23-26 | the reader's `readU16` gives back the number the writer's `to_bytes(2, "little")` wrote |
| Bytes.ReadU32OfU32Le | I18n.hpp:27-33 | the reader's `readU32` gives back the number the writer's `to_bytes(4, "little")` wrote |
| Bytes.Xor | translate/po2ymo.py:11 | definition: Python's `^` on non-negative integers, bit by bit |
| Bytes.CharUnits | translate/po2ymo.py:106 | one character is one or two UTF-16 code units, and it holds a zero unit exactly when the character is NUL |
| Bytes.EncodeUtf16 | translate/po2ymo.py:106 | at least one code unit per character; a zero unit appears exactly when the string holds NUL |
| Bytes.EncodeUtf16Append | translate/po2ymo.py:105-106 | UTF-16 encoding of a concatenation is the concatenation of the encodings |
| Bytes.Utf16Le | translate/po2ymo.py:106 | the UTF-16LE bytes are two per code unit |
| Bytes.ReadU16OfUtf16Le | I18n.hpp:77 | reading `wchar_t` number `k` over UTF-16LE bytes gives back code unit `k` |
| Bytes.Utf16LeAppend | translate/po2ymo.py:107 | little-endian encoding distributes over concatenation |
| Bytes.TakeUntilNul | I18n.hpp:99 | what `wcslen` measures: the longest prefix holding no zero unit, stopped by a zero unit or the end |
| Fnv.Round | translate/po2ymo.py:10-12 | one round of xor, multiplication by the prime and masking stays below 2^32 |
| Fnv.Fnv1a32 | translate/po2ymo.py:5-13 | the hash is below 2^32, and the empty input hashes to the offset basis 0x811c9dc5 |
| Fnv.ComputeFnv1a32 | translate/po2ymo.py:9-13 | the in-place byte loop computes the left fold `Fnv1a32` |
| Fnv.Fnv1a32From | translate/po2ymo.py:9-13 | definition: `fnv1a_32(data, hval)`, the rounds of `data` applied to an explicit `hval`; `Fnv1a32Resume` ties it to `Fnv1a32` |
| Fnv.Fnv1a32Resume | translate/po2ymo.py:9 | starting from `hval = fnv1a_32(a)` and hashing `b` equals hashing `a + b` |
| I18n.HeaderFits | I18n.hpp:12-15 | definition: the count can be read and `2 + 6 * len` bytes fit in the buffer (also lines 46-54); `LoadTranslateData` changes nothing when it fails |
| I18n.RecordCount | I18n.hpp:47 | the declared record count `len` is below 2^16 |
| I18n.RecordHash | I18n.hpp:61-62 | record `i`'s hash is read at `2 + 6i` and is below 2^32 |
| I18n.RecordOffset | I18n.hpp:61-63 | record `i`'s offset is read at `2 + 6i + 4` and is below 2^16 |
| I18n.MaxChars | I18n.hpp:70-71 | `maxChars` whole code units fit between the offset and the end of the buffer, and one more does not |
| I18n.OffsetAccepted | I18n.hpp:65-81 | definition: the offset is inside the buffer and even, at least one code unit remains, and a zero unit lies among the remaining ones; `AcceptedTextInBounds` gives its consequence |
| I18n.TextAt | I18n.hpp:77 | the string at an offset holds no zero unit, lies inside the buffer, and is the code units read there |
| I18n.AcceptedTextInBounds | I18n.hpp:65-81 | the string at an accepted offset ends at a zero code unit inside the buffer, so no read goes past `size` |
| I18n.TextEndsAtNul | I18n.hpp:34-44 | a zero unit at index `k` ends the string at or before `k` |
| I18n.TableAfter | I18n.hpp:59-84 | definition: the table after the loop has visited `n` records; an accepted record is added unless its hash is present, a rejected one is skipped; `TableAfterKeys`, `FirstAcceptedWins` and `TableAfterAccepted` state its meaning |
| I18n.DecodeTable | I18n.hpp:59-84 | definition: the table after all `len` records |
| I18n.TableAfterAccepted | I18n.hpp:59-84 | every offset in the table passed the checks of lines 65-81 |
| I18n.TableAfterKeys | I18n.hpp:59-84 | a hash is in the table exactly when some visited record with that hash was accepted; a rejected record neither stops the loop nor hides later ones |
| I18n.FirstAcceptedWins | I18n.hpp:83 | for a duplicated hash the table holds the offset of the first accepted record (`emplace` does not overwrite) |
| I18n.TextHash | I18n.hpp:99 | the hash over `wcslen(str) * sizeof(wchar_t)` bytes is below 2^32 |
| I18n.Resolve | I18n.hpp:99-102 | the table's string when the hash is present, the argument itself otherwise |
| I18n.LiteralFallbackIffMiss | I18n.hpp:114-117 | for a literal key, getting the argument back is equivalent to the hash missing from the table |
| I18n.ContextKey | I18n.hpp:121 | the `C_` key is the context, the unit 0x04 and the msgid, and holds no zero unit when its parts hold none |
| I18n.Translator.constructor | I18n.hpp:4 | both maps start empty, and the table invariant holds |
| I18n.Translator.HasNullTerminator | I18n.hpp:34-44 | the scan returns true exactly when one of the first `maxChars` code units is zero |
| I18n.Translator.LoadTranslateData | I18n.hpp:6-88 | a header that fits replaces the table by the one decoded from this buffer alone; a missing resource or a header that does not fit leaves resource and table unchanged; the cache is untouched; every stored string is NUL-terminated inside the buffer |
| I18n.Translator.Translate | I18n.hpp:90-110 | a cached pointer returns its cached answer and the cache is unchanged, even if the table changed; otherwise the answer is `Resolve` and is cached; the cache only grows and never changes an old answer |
| I18n.Translator.TranslateContext | I18n.hpp:112-118 | returns `str` when the key's translation is the key itself, otherwise that translation; for an uncached literal key, the table's string on a hit and `str` on a miss |
| PoParser.StripLeft | translate/po2ymo.py:44 | shape only: the result is no longer than the input and does not start with white space; the exact result is `StripLeftMeaning` |
| PoParser.StripRight | translate/po2ymo.py:44 | shape only: the result is no longer than the input, keeps the first character, and does not end with white space; the exact result is `StripRightMeaning` |
| PoParser.Strip | translate/po2ymo.py:44 | shape only: `str.strip()` neither starts nor ends with white space and is no longer than the input; the exact result is `StripMeaning` |
| PoParser.StripLeftMeaning | translate/po2ymo.py:44 | the result is the suffix of the input after a run of white space, so exactly the leading white space is removed |
| PoParser.StripRightMeaning | translate/po2ymo.py:44 | the result is the prefix of the input before a run of white space, so exactly the trailing white space is removed |
| PoParser.StripMeaning | translate/po2ymo.py:44 | `str.strip()` is the slice `s[i..j]` with only white space outside it; with `Strip`'s contract (no white space at either end) this fixes the result |
| PoParser.StripStable | translate/po2ymo.py:16 | a string without white space at either end is left as it is |
| PoParser.StripIdempotent | translate/po2ymo.py:16 | stripping twice is stripping once, so `parse_po_quoted` on a stripped line changes nothing |
| PoParser.Find | translate/po2ymo.py:66 | `find` returns the first index of the character, or -1 (`None`) when it does not occur |
| PoParser.Flush | translate/po2ymo.py:27-41 | without a `msgid` nothing happens; otherwise the entry is appended, with a missing `msgstr` as `""`, and all four fields are reset |
| PoParser.PluralMsgstr | translate/po2ymo.py:65-75 | a `msgstr[` line never changes the entry list, and one without `]` changes nothing |
| PoParser.PluralValue | translate/po2ymo.py:68-74 | index `0` with a quoted value that `literal_eval` accepts sets `msgstr` to that value and the state to `msgstr`; any other index or an unquoted value only clears the state; a rejected `msgstr[0]` literal fails the line, and failure comes from nothing else; the entries never change |
| PoParser.PluralIndexAfterBracket | translate/po2ymo.py:65-68 | on a `msgstr[` line the first `]` comes after the bracket, so the index slice is well formed |
| PoParser.Step | translate/po2ymo.py:43-87 | definition: one pass of the loop body, branch by branch in the source's order (blank, `#,`, `#`, keyword lines); `None` when a literal is rejected |
| PoParser.KeywordLine | translate/po2ymo.py:55-87 | definition: the `msgctxt`, `msgid`, `msgstr[`, `msgstr` and quoted-line branches, in the source's order |
| PoParser.RunFrom | translate/po2ymo.py:43-87 | definition: the line loop from a given parser state, stopping at the first rejected literal |
| PoParser.ParseLines | translate/po2ymo.py:43-90 | definition: the loop from the empty state, then the final `flush_entry()` |
| PoParser.RunFromAppend | translate/po2ymo.py:43 | running the loop over `a + b` is running it over `a` and then over `b` |
| PoParser.RunFromOne | translate/po2ymo.py:43 | running the loop over one line is one step |
| PoParser.RunPrefixStep | translate/po2ymo.py:43 | one more line applies one more step |
| PoParser.RunPrefixFails | translate/po2ymo.py:16 | once a literal is rejected the whole run fails |
| PoParser.BlankLineEndsEntry | translate/po2ymo.py:45-48 | a blank line emits the entry if it has a `msgid` and clears the state either way |
| PoParser.CommentLine | translate/po2ymo.py:49-54 | a `#` line changes nothing except that a `#,` line mentioning "fuzzy" sets the fuzzy flag |
| PoParser.KeywordIsNotComment | translate/po2ymo.py:53-65 | a keyword line is not a comment, and `msgid ` and `msgstr[` lines do not match an earlier keyword, nor a `msgstr ` line an earlier keyword or `msgstr[` |
| PoParser.QuotedIsContinuation | translate/po2ymo.py:80 | a line starting with a quote matches no keyword and no comment |
| PoParser.NewMsgidEndsEntry | translate/po2ymo.py:59-64 | a `msgid` line emits the previous entry exactly when it has both `msgid` and `msgstr`; otherwise only `msgid` is replaced |
| PoParser.PluralIndexZeroOnly | translate/po2ymo.py:65-75 | a plural index other than `0` clears the state and keeps the entry; only index `0` can change the entry being read; `msgstr[0]` with a quoted value that `literal_eval` accepts sets `msgstr` to it and the state to `msgstr`, and one that `literal_eval` rejects fails the line |
| PoParser.ContinuationExtendsField | translate/po2ymo.py:80-87 | a quoted line appends its value to the field the state names (a missing field counting as `""`), and a rejected literal fails the parse |
| PoParser.KeywordLiteral | translate/po2ymo.py:55-78 | a `msgctxt `, `msgid ` or `msgstr ` line whose literal `literal_eval` rejects fails the line; an accepted `msgctxt ` or `msgstr ` literal sets that field and makes it the state |
| PoParser.StepKeepsEntries | translate/po2ymo.py:43-87 | one line never removes an entry and emits at most one |
| PoParser.KeywordLineKeepsEntries | translate/po2ymo.py:55-87 | keyword and continuation lines emit at most the flushed entry |
| PoParser.MsgidLineEntries | translate/po2ymo.py:59-64 | a `msgid` line appends the flushed entry or nothing |
| PoParser.OtherLineEntries | translate/po2ymo.py:55-87 | `msgctxt`, `msgstr`, plural and continuation lines leave the entry list alone |
| PoParser.RunKeepsEntries | translate/po2ymo.py:43-87 | entries already emitted are never revised by later lines |
| PoParser.RejectedLiteralFailsParse | translate/po2ymo.py:15-16 | a literal `literal_eval` rejects makes `parse_po` raise, whatever follows it |
| PoParser.FlushEntry | translate/po2ymo.py:27-41 | `flush_entry` on the loop's variables is `Flush` |
| PoParser.ParseLine | translate/po2ymo.py:43-87 | one pass of the loop body succeeds exactly when `Step` does, and leaves its state |
| PoParser.ParseKeywordLine | translate/po2ymo.py:55-87 | the keyword and continuation branches succeed exactly when `KeywordLine` does, and leave its state |
| PoParser.ParsePluralMsgstr | translate/po2ymo.py:65-75 | the `msgstr[` branch succeeds exactly when `PluralMsgstr` does, and leaves its state |
| PoParser.ParsePo | translate/po2ymo.py:19-90 | `parse_po` returns the entries of the line loop followed by the final `flush_entry`, or fails when some literal is rejected |
| Po2Ymo.Kept | translate/po2ymo.py:98-101 | definition: non-empty `msgid` and `msgstr`, and not fuzzy unless fuzzy entries are included |
| Po2Ymo.SourceKey | translate/po2ymo.py:103-105 | definition: context, U+0004 and `msgid` for a non-empty context, otherwise `msgid`; `SourceKeyShape` states its parts |
| Po2Ymo.KeyHash | translate/po2ymo.py:106 | definition: FNV-1a over the UTF-16LE bytes of the key; `SameHash` ties it to the reader's hash |
| Po2Ymo.SourceKeyShape | translate/po2ymo.py:103-105 | the key is `msgid` without a non-empty context, otherwise context, U+0004 and `msgid` |
| Po2Ymo.Payload | translate/po2ymo.py:107 | the payload is two bytes per code unit of `msgstr` plus two zero bytes |
| Po2Ymo.IndexOf | translate/po2ymo.py:107 | the position of a key in the dict: the first unit with that hash, or `None` when there is none |
| Po2Ymo.Put | translate/po2ymo.py:107 | `units[h] = data` replaces the value in place for a present key and appends a new key at the end |
| Po2Ymo.PutKeepsDistinct | translate/po2ymo.py:107 | the dict never holds a key twice |
| Po2Ymo.LastProducer | translate/po2ymo.py:97-107 | the index found is an index of an entry |
| Po2Ymo.LastProducerSpec | translate/po2ymo.py:97-107 | the last kept entry with the hash, with no later one; `None` exactly when no kept entry has it |
| Po2Ymo.UnitsOfSpec | translate/po2ymo.py:96-107 | dict keys are distinct; a hash is a key exactly when a kept entry (non-empty `msgid` and `msgstr`, not fuzzy unless included) produces it; its payload is the last such entry's |
| Po2Ymo.UnitsIndexAfterPut | translate/po2ymo.py:107 | storing under another key leaves the position and value of a key |
| Po2Ymo.UnitsOf | translate/po2ymo.py:96-107 | definition: the `units` dict after the loop, kept entries stored with `Put`; `UnitsOfSpec` states its meaning |
| Po2Ymo.BuildUnits | translate/po2ymo.py:96-107 | the filter-and-store loop builds `UnitsOf` |
| Po2Ymo.Payloads | translate/po2ymo.py:123-124 | the concatenated payloads are `DataLen` bytes long |
| Po2Ymo.Records | translate/po2ymo.py:116-121 | the record table is six bytes per unit |
| Po2Ymo.FitCount | translate/po2ymo.py:116-118 | the records before the first starting offset above 0xFFFF are written; all of them exactly when every offset fits |
| Po2Ymo.OffsetsFitPrefix | translate/po2ymo.py:116-118 | a record's offset fits exactly when the earlier ones do and its own starting offset is at most 0xFFFF |
| Po2Ymo.OffsetsFitShorter | translate/po2ymo.py:116-118 | offsets that fit for a prefix fit for every shorter prefix |
| Po2Ymo.Image | translate/po2ymo.py:112-124 | definition: the count, the records and the payloads; `ImageHeader`, `ImageRecord` and `ImagePayloadLayout` state its layout |
| Po2Ymo.Written | translate/po2ymo.py:109-124 | definition: nothing and `TooManyEntries` above 0xFFFF units; the header and the records before the first oversized offset and `DataTooLarge`; otherwise the whole image |
| Po2Ymo.WriteYmo | translate/po2ymo.py:109-124 | more than 0xFFFF units writes nothing and raises; an oversized starting offset leaves the header and the records before it and raises; otherwise the whole image is written |
| Po2Ymo.WriteRecords | translate/po2ymo.py:115-121 | the record loop writes every record exactly when all offsets fit, and otherwise stops at the first that does not |
| Po2Ymo.WritePayloads | translate/po2ymo.py:123-124 | the payload loop appends all payloads in dict order |
| Po2Ymo.RecordsSnoc | translate/po2ymo.py:119-121 | writing record `i` appends its hash and running offset, and the offset advances by its payload length |
| Po2Ymo.PayloadsSnoc | translate/po2ymo.py:123-124 | writing payload `i` appends it |
| Po2Ymo.WriteStopsAt | translate/po2ymo.py:116-118 | the first oversized offset is where writing stops |
| Po2Ymo.StartOffsetStep | translate/po2ymo.py:115-121 | the first offset is `2 + 6n`, and each next one is the previous plus the previous payload's length |
| Po2Ymo.DataLenPrefix | translate/po2ymo.py:123-124 | payload `i` lies in the payload area right after the payloads before it |
| Po2Ymo.RecordsAt | translate/po2ymo.py:119-120 | record `i` of the table reads back as the unit's hash and its running offset, which fits in 16 bits |
| Po2Ymo.ImageHeader | translate/po2ymo.py:112-115 | bytes 0-1 hold the count, and the total length is `2 + 6n` plus all payload lengths |
| Po2Ymo.ImageRecord | translate/po2ymo.py:115-121 | record `i` sits at `2 + 6i` and reads back as the unit's hash and starting offset |
| Po2Ymo.ImagePayloadLayout | translate/po2ymo.py:123-124 | unit `i`'s payload lies in the image at the offset its record holds |
| Po2Ymo.Converted | translate/po2ymo.py:93-124 | the conversion fails exactly when parsing does |
| Po2Ymo.Convert | translate/po2ymo.py:93-124 | `po2ymo` is parse, fill `units`, write |
| RoundTrip.PayloadUnits | translate/po2ymo.py:107 | a payload is the UTF-16LE bytes of `msgstr` followed by one zero code unit, an even number of bytes ending in two zero bytes |
| RoundTrip.UnitsOfShaped | translate/po2ymo.py:96-107 | every payload in the dict has that shape |
| RoundTrip.DataLenEven | translate/po2ymo.py:121 | payloads add up to an even length |
| RoundTrip.StartOffsetEven | translate/po2ymo.py:115-121 | every offset written is even |
| RoundTrip.ImageHeaderFits | I18n.hpp:46-54 | the loader's header check passes on a written image and reads the count written |
| RoundTrip.RecordRead | I18n.hpp:61-65 | a record's hash and offset are the values at `2 + 6i`, and it is accepted when its offset is |
| RoundTrip.ShapedPayloadAccepted | I18n.hpp:65-81 | an even offset holding a payload of whole code units that ends in a zero unit passes every check |
| RoundTrip.PayloadOffsetAccepted | I18n.hpp:65-81 | every offset written passes the loader's checks: inside the image, aligned, with a zero unit before the end |
| RoundTrip.ImageRecordAccepted | I18n.hpp:59-83 | record `i` of a written image is read back as the unit's hash and offset and is accepted |
| RoundTrip.ImageRecordsAccepted | I18n.hpp:59-84 | every record of a written image is accepted |
| RoundTrip.DecodeImage | I18n.hpp:59-84 | the table loaded from a written image has exactly the dict's keys, each at the offset written for it |
| RoundTrip.TextAtUnits | I18n.hpp:77 | the wide string read over UTF-16LE bytes is the code units up to the first zero |
| RoundTrip.TakeUntilNulPadded | I18n.hpp:99 | a trailing zero unit does not change where the string ends |
| RoundTrip.ImageText | I18n.hpp:77-83 | the loader's string at unit `i` is its `msgstr` up to the first NUL |
| RoundTrip.SameHash | I18n.hpp:99 | the reader hashes a key's code units as the writer hashes its UTF-16LE encoding |
| RoundTrip.ContextKeyAgrees | I18n.hpp:121 | the `C_` key for a context and msgid is the key `po2ymo` hashes for an entry with that context |
| RoundTrip.EndToEnd | I18n.hpp:90-110 | after loading what `po2ymo` wrote, a lookup finds the last kept entry's `msgstr` up to its first NUL, and a key no kept entry has comes back unchanged |
| SettingsUtil.LegacySettingsPath | SettingsUtil.hpp:8-11 | definition: the configuration file name in the executable's directory |
| SettingsUtil.GetSettingsPath | SettingsUtil.hpp:13-22 | `APPDATA\AudioPlaybackConnector\AudioPlaybackConnector.json` when `APPDATA` is set and non-empty, otherwise the legacy path; the file name is always the configuration name |
| SettingsUtil.AppDataRule | SettingsUtil.hpp:15-21 | an empty `APPDATA` counts as unset, and a usable one makes the executable's location irrelevant |
| SettingsUtil.ResolveSettingsLoadPath | SettingsUtil.hpp:24-41 | the preferred path if it exists, else the legacy path if it exists, else the preferred path; an existing file is found whenever one of the two exists |
| SettingsUtil.StringItems | SettingsUtil.hpp:120-124 | no more items than the array |
| SettingsUtil.StringItemsSpec | SettingsUtil.hpp:120-124 | a string is kept exactly when the array holds it, and an all-string array is kept whole and in array order; order and repetition in a mixed array are stated by `StringItemsAppend` |
| SettingsUtil.StringItemsAppend | SettingsUtil.hpp:120-124 | the strings of `a + b` are those of `a` followed by those of `b`, and one item gives its string or nothing; so every string item is pushed once, in array order |
| SettingsUtil.ApplyJson | SettingsUtil.hpp:113-124 | a missing or non-boolean `reconnect` leaves the defaults; `showNotification` is taken when it is a boolean and stays true otherwise; devices are taken only from a `lastDevices` array; a non-boolean `showNotification` throws before `lastDevices` is read, so the device list stays empty |
| SettingsUtil.WellFormedObject | SettingsUtil.hpp:113-124 | a well-formed object sets each setting from its field, `showNotification` defaulting to true |
| SettingsUtil.ConfigRead | SettingsUtil.hpp:97-109 | the content is the whole file exactly when it is smaller than `MAX_CONFIG_SIZE`; otherwise `E_BOUNDS` |
| SettingsUtil.ReadConfig | SettingsUtil.hpp:97-109 | the read loop, with requests of `min(BUFFER_SIZE, MAX_CONFIG_SIZE - size)` and the buffer never above `MAX_CONFIG_SIZE`, yields `ConfigRead` |
| SettingsUtil.LoadedSettings | SettingsUtil.hpp:87-127 | definition: the defaults, updated by `ApplyJson` when the resolved file opens, is below `MAX_CONFIG_SIZE` and parses |
| SettingsUtil.LoadFailureGivesDefaults | SettingsUtil.hpp:87-127 | a file that cannot be opened, is 1 MiB or larger, or does not parse leaves the defaults |
| SettingsUtil.PrettyJson | SettingsUtil.hpp:43-78 | definition: the head with both flags, then the device list and the closing brace; `PrettyJsonFrame`, `PrettyJsonEnd` and `PrettyJsonDevices` state its shape |
| SettingsUtil.DeviceLinesJoined | SettingsUtil.hpp:60-69 | the loop's lines are the items joined by `",\n"`, followed by `",\n"` or, after the last item, `"\n"` |
| SettingsUtil.PrettyJsonFrame | SettingsUtil.hpp:47-54 | the text starts with `"{\n"` and the head holding both flags as `true`/`false` and the opening of the device list |
| SettingsUtil.PrettyJsonEnd | SettingsUtil.hpp:75-76 | the text ends with `"]\n}\n"` |
| SettingsUtil.PrettyJsonDevices | SettingsUtil.hpp:54-76 | no devices gives `"lastDevices": []`; otherwise one device per line indented four spaces, a comma after all but the last, and the bracket indented two spaces |
| SettingsUtil.Settings.DefaultSettings | SettingsUtil.hpp:80-85 | reconnect false, showNotification true, no devices |
| SettingsUtil.Settings.BuildPrettySettingsJson | SettingsUtil.hpp:43-78 | the appended text is `PrettyJson` of the flags and ids |
| SettingsUtil.Settings.AppendTail | SettingsUtil.hpp:55-77 | appends the device list and the closing brace |
| SettingsUtil.Settings.AppendDeviceLines | SettingsUtil.hpp:60-69 | the device loop appends one line per device |
| SettingsUtil.Settings.LoadSettings | SettingsUtil.hpp:87-127 | the defaults, then the file `ResolveSettingsLoadPath` picks, when it opens, is small enough and parses, applied as `ApplyJson` |
| SettingsUtil.Settings.ApplyObject | SettingsUtil.hpp:113-124 | the lookups on the parsed object turn the defaults into `ApplyJson(obj)`, stopping at the first lookup that throws |

## Left out

- OS resource retrieval (`FindResourceExW`, `SizeofResource`, `LoadResource`, `LockResource`, `GetThreadUILanguage`) is not modelled. `LoadTranslateData` takes the resource's bytes, or `None` when any of these steps fails.
- `ast.literal_eval` is the parameter `unquote`, which yields a string or `None` for a literal it rejects. A literal that evaluates to something other than a string is not modelled.
- `str.encode` raises `UnicodeEncodeError` for a lone surrogate. A Dafny `char` cannot hold one, so `unquote` never yields such a string and that error is not modelled.
- The `encoding` argument of `po2ymo` is fixed to `"utf-16le"` in `Po2Ymo.Convert`; other encodings are not modelled.
- `Utf8ToUtf16` and `Utf16ToUtf8` on the settings side are not modelled; they are part of the `parse` oracle.
- The JSON library (`JsonObject::Parse`, `Lookup`, `GetBoolean`, `GetArray`, `Stringify`) is replaced by the oracles `parse` and `stringify` and the value type `SettingsUtil.Json`.
- `ReadFile` is modelled as returning as many bytes as the file has left, up to the request. A failing `ReadFile` is not modelled.
- `fs::exists` reporting an error is folded into the `pathExists` oracle.
- `SaveSettings` is not modelled. Its only logic is the lock on the connection list and the file write, which are concurrency and I/O. The text it writes is `BuildPrettySettingsJson`, which is modelled.
- Opening, reading and writing files, and the `__main__` block of po2ymo.py, are not modelled. `Po2Ymo.Convert` takes the file's lines and returns the bytes written.
- Logging by `CATCH_LOG` and the `THROW_*` macros is modelled only as the outcome that the settings stay where they got.
- Pointer identity is modelled abstractly. `I18n.Ptr` is a literal's identity or an offset into the resource. An offset does not record which loaded resource it points into, so a cached answer from before a reload is not told apart from one after it.
- Python `int` hash values are unbounded naturals bounded by the types `Po2Ymo.Hash` and `Bytes.Byte`. No wrap-around arises other than the explicit `& 0xffffffff`, which is modelled as `% 2^32`.
- PoParser.StripLeft: its own ensures give only the shape of the result, which keeps the parser proofs cheap; `PoParser.StripLeftMeaning` states the exact result.
- PoParser.StripRight: its own ensures give only the shape of the result; `PoParser.StripRightMeaning` states the exact result.
- PoParser.Strip: its own ensures give only the shape of the result; `PoParser.StripMeaning` states the exact result.
- I18n.Translator.Translate: the caller supplies `text`, the string `str` points at; for a `Resource` pointer the model does not tie `text` to the loaded resource.
- RoundTrip.EndToEnd: is stated for every key, but a key whose encoding holds a NUL is unreachable, because `Translate` hashes only up to the first NUL (`wcslen`, I18n.hpp:99) and requires a NUL-free `text`.
- I18n.Translator.TranslateContext: the uncached case is stated for a literal key only, the only kind the `C_` macro passes. A resource pointer passed as the key is left unstated.
