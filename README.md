# Minecraft username → UUID generator, modelled in Dafny

This project models the core of a small web page. The page turns Minecraft
usernames into player UUIDs.

- **Offline identifiers.** An offline player's UUID is derived from the MD5
  digest of `"OfflinePlayer:" + name`:
  - the four 32-bit digest words are unpacked big-endian into sixteen bytes;
  - byte 6 is stamped with version 3;
  - byte 8 is stamped with the variant bits of RFC 4122;
  - the bytes are written as lower-case hex in the 8-4-4-4-12 layout.
- **Offline batch generation.** Each input name is derived on its own. A name
  that fails is rejected and adds no mapping, and the batch goes on with the
  next name.
- **Helpers.** The model covers:
  - reading the names out of the input text: split on line feeds, trim, drop
    empty lines;
  - ordered comparison of two name lists;
  - rendering a pair, and a list of pairs as text;
  - the layout of the download timestamp, which is year, **day**, month, hours,
    minutes, seconds, with the day before the month as the code writes it.
- **The page controller** (`UUIDGenerator`). It remembers the last request, as
  a list of names and an import type. It also keeps the identifiers it
  produced in an insertion-ordered `Map`. It regenerates only when the request
  changes. When it rebuilds the cache:
  - a later mapping for the same name wins;
  - entries follow the order of the request, not the order of the results.

  It also merges the names of an uploaded file into the input box, and names
  the download file `uuid-<timestamp>.<format>`.

Modules, one per source file, plus models of the JavaScript built-ins the code
relies on:

| module | models |
|---|---|
| `Types` | the shared records of `src/types/global.d.ts` |
| `JsText` | `split` with a one-character separator, `join`, `trim`, `padStart` and `Number.prototype.toString` |
| `JsMap` | the `Map` operations the cache uses: insertion order, `get`, and `set` (which keeps a key's position) |
| `Uuid` | `src/js/uuid.js` |
| `Generator` | `src/js/generator.js`, offline half |
| `Utils` | `src/js/utils.js`, the pure helpers |
| `App` | `src/main.js`, class `UUIDGenerator` |

`createUUID` fills a 16-byte array in a loop and then overwrites bytes 6 and 8
in place. It is therefore an imperative method over an `array<bv8>`, proved
against the value-level definition `OfflineUUID`.

`generateOfflineMappings` and `areArraysEqual` are loops. The first is proved
against recursive specification functions. The second is proved against a
predicate that compares the lists position by position.

`UUIDGenerator` is a class. Its fields are:
- the input box's text;
- `usernames`;
- `importType` (the source's `type`, where `''` becomes `None`);
- `cachedMappings`, a sequence of entries with distinct keys.

Its methods change exactly the fields the source changes.

The download file name is `uuid-<timestamp>.<ext>`, as `src/main.js:235`
writes it. There is no `-formatted` suffix.

## Model

| member | source | states |
|---|---|---|
| Uuid.CreateUUID | src/js/uuid.js:8-22 | A value that is not a string fails with the TypeError message. A string name yields the formatted, fixed-up MD5 digest of exactly `"OfflinePlayer:" + name`, so equal names give equal identifiers. The loop stores byte `i` as byte `i % 4` of word `i / 4`, most significant first. |
| Uuid.WordFromBytes | src/js/uuid.js:16-18 | Packing bytes `4j .. 4j+3` back together, most significant first, gives digest word `j`: the unpacking is big-endian and loses no bit. |
| Uuid.DigestBytesInjective | src/js/uuid.js:16-18 | Two digests with the same sixteen unpacked bytes are the same digest. |
| Uuid.SetVersion | src/js/uuid.js:19 | After the fixup, byte 6 has high nibble 3 and keeps its low nibble. |
| Uuid.SetVariant | src/js/uuid.js:20 | After the fixup, byte 8 has top bits `10` and keeps its low six bits. |
| Uuid.UuidBytesFixups | src/js/uuid.js:16-20 | Of the sixteen identifier bytes, all but bytes 6 and 8 equal the raw digest bytes. Byte 6 carries version 3 over the digest's low nibble. Byte 8 carries the variant bits over the digest's low six bits. |
| Uuid.HexByte | src/js/uuid.js:29 | `b.toString(16).padStart(2, '0')` is exactly two lower-case hex digits: high nibble, then low nibble. |
| Uuid.GroupsLayout | src/js/uuid.js:30-36 | Joining the 4-2-2-2-6 slices of two-digit strings with `-` gives 36 characters. Hyphens stand at 8, 13, 18 and 23, and the digits of string `i` stand at `HexPos(i)`. |
| Uuid.GroupsCanonical | src/js/uuid.js:30-36 | When every slice element is two hex digits, the joined text is canonical. |
| Uuid.FormatUUID | src/js/uuid.js:28-37 | The text form of sixteen bytes has length 36. |
| Uuid.FormatUUIDLayout | src/js/uuid.js:28-37 | The text form is canonical: hyphens exactly at 8, 13, 18 and 23, and `[0-9a-f]` everywhere else. Byte `i` stands at `HexPos(i)` as its high digit then its low digit, in byte order. |
| Uuid.ParseOfFormat | src/js/uuid.js:29-36 | Round trip: reading the 32 hex digits of the text form back gives the original sixteen bytes. |
| Uuid.FormatOfParse | src/js/uuid.js:28-37 | The other direction: every canonical string is the text form of the bytes it reads as. |
| Uuid.FormatUUIDInjective | src/js/uuid.js:28-37 | Different byte arrays never share a text form. |
| Uuid.VersionDigits | src/js/uuid.js:19-21 | In the text form, the fixed-up bytes show as digit `3` at position 14 and as one of `8`, `9`, `a`, `b` at position 19. |
| Uuid.OfflineUUID | src/js/uuid.js:12-21 | An offline identifier is 36 characters: the text form of the fixed-up digest of `"OfflinePlayer:" + name`. |
| Uuid.OfflineUUIDShape | src/js/uuid.js:12-21 | An offline identifier is canonical and reads back as the fixed-up digest bytes of `"OfflinePlayer:" + name`. It has `3` at position 14 and a variant digit at position 19. |
| Generator.GenerateOfflineMappings | src/js/generator.js:33-47 | The outcomes are exactly one per input, in input order. The mappings are exactly those of the specification `OfflineMappings` with `createUUID` as the deriver. |
| Generator.OfflineOutcome | src/js/generator.js:37-43 | An item's task is rejected exactly when its name is not a string, and the reason is the TypeError message. |
| Generator.OfflineOutcomes | src/js/generator.js:36-44 | There is one settled outcome per input, and outcome `i` belongs to input `i`. |
| Generator.BatchStep | src/js/generator.js:36-44 | One more name appends its own outcome. It appends its own mapping when it derives, and nothing when it fails. |
| Generator.MappingsAreStringInputs | src/js/generator.js:36-39 | The mappings are exactly the string inputs, in input order, each with its derived identifier. |
| Generator.StringsAreInputs | src/js/generator.js:36-39 | Every mapped name is one of the inputs. |
| Generator.StringsAppend | src/js/generator.js:36-39 | The string inputs of `a + b` are those of `a` followed by those of `b`, so order is kept. |
| Generator.MappingsAppend | src/js/generator.js:36-44 | The batch over `a + b` collects the mappings of `a`, then those of `b`. A failing name therefore never stops the names after it. |
| Generator.SingleInput | src/js/generator.js:37-43 | A failing name gives a rejection and no mapping. A string name gives a fulfilment and its own mapping. |
| Generator.MappingsPlusFailures | src/js/generator.js:36-44 | The number of mappings plus the number of rejections equals the number of inputs. |
| Generator.AllStringsAllMapped | src/js/generator.js:38-40 | When every input is a string, nothing is rejected, `\|mappings\| == \|usernames\|`, and mapping `i` is name `i` with its identifier. |
| JsText.NumberToString | src/js/uuid.js:29 | `toString(radix)` emits at least one lower-case digit character and has no leading zero. |
| JsText.NumberToStringDigits | src/js/uuid.js:29 | Every digit `toString(radix)` emits is below the radix. |
| JsText.NumberToStringReadsBack | src/js/uuid.js:29 | Reading the digits back in the same radix gives the number. |
| JsText.PadStart | src/js/uuid.js:29 | `padStart` reaches the width, ends with the original string, and fills the front with the filler. |
| JsText.Join | src/js/uuid.js:31-36 | Definition: `Array.prototype.join`, the pieces with the separator between neighbours. Used at `src/js/utils.js:77`, `src/js/utils.js:85-92` and `src/main.js:216`. Its properties are `JoinOfSplit`, `SplitOfJoin` and `JoinWithout`. |
| JsText.IntToString | src/js/utils.js:86-91 | Definition: `String(n)`, which is the decimal digits of `n` with a leading `-` when `n` is negative. This is also how `join` writes the year. Its properties come from `NumberToString`, `NumberToStringReadsBack` and `TimestampFieldsAre`. |
| JsText.Split | src/js/utils.js:101 | `split` returns at least one piece, and no piece holds the separator. |
| JsText.JoinOfSplit | src/js/utils.js:101 | Joining the pieces of a split with the separator gives the string back. |
| JsText.SplitOfJoin | src/main.js:216 | Splitting a join of separator-free pieces gives the pieces back. |
| JsText.SplitAround | src/main.js:216 | Splitting `a + sep + b` gives the pieces of `a` followed by the pieces of `b`. |
| JsText.Trim | src/js/utils.js:102 | `trim` is no longer than its input and neither starts nor ends with white space. |
| JsText.TrimRemovesWhitespace | src/js/utils.js:102 | Trim removes a white-space prefix and a white-space suffix and nothing else. |
| JsText.TrimOfPadded | src/js/utils.js:102 | White space, then a trimmed core, then white space trims to the core. |
| JsText.TrimOfTrimmed | src/js/utils.js:102 | Trim leaves a trimmed string unchanged (idempotence). |
| JsText.TrimKeeps | src/js/utils.js:102 | Every character of the trimmed string was in the input. |
| Utils.ParseUsernames | src/js/utils.js:99-104 | No parsed name is empty or has white space at either end, and there are at most as many names as `\n`-separated lines. |
| Utils.KeepNames | src/js/utils.js:102-103 | The trimmed, non-empty lines are never more than the lines, and each is non-empty and trimmed. |
| Utils.KeepNamesAppend | src/js/utils.js:100-103 | Lines are handled one at a time in order: the names of `a + b` are those of `a`, then those of `b`. |
| Utils.KeepNamesMembers | src/js/utils.js:102-103 | A string is a parsed name exactly when it is the non-empty trim of some line (both directions). |
| Utils.KeepNamesOfNames | src/js/utils.js:102-103 | Names that are already trimmed and non-empty pass through unchanged and in order. |
| Utils.KeepNamesWithout | src/js/utils.js:102-103 | A character that no line holds is held by no name. |
| Utils.ParsedHaveNoLineFeed | src/js/utils.js:100-103 | No parsed name contains a line feed. |
| Utils.ParseUsernamesOfLines | src/js/utils.js:100-103 | Parsing lines joined with `\n` gives the trimmed, non-empty lines in their original order. |
| Utils.ParseUsernamesIdempotent | src/js/utils.js:99-104 | Writing the parsed names one per line and parsing again gives the same names. |
| Utils.AreArraysEqual | src/js/utils.js:112-120 | The result is true exactly when the lengths agree and `a[i] == b[i]` at every position. |
| Utils.SameElementsIsEquality | src/js/utils.js:112-120 | Element-by-element equality is list equality, so it is reflexive and symmetric. |
| Utils.SameElementsIsOrdered | src/js/utils.js:116-118 | The comparison is order-sensitive: `[x, y]` and `[y, x]` differ when `x != y`. |
| Utils.FormatPair | src/js/utils.js:61-66 | A pair is a record exactly in the JSON format. |
| Utils.FormatPairReadsBack | src/js/utils.js:61-66 | In JSON format the record holds `uuid` and `name = username`. Otherwise the text is exactly the name, `" - "` and the identifier, and it reads back as those three parts. |
| Utils.FormatOutputCode | src/js/utils.js:73-78 | Definition: the serialiser's output for JSON, otherwise the pairs' texts joined with `\n`. Its properties are the two lemmas below. |
| Utils.JoinText | src/js/utils.js:77 | Definition: how `join` turns one element into text. A text line is itself, and a record prints as `[object Object]`. Its properties are `FormatOutputCodeFew` and `FormatOutputCodeLines`. |
| Utils.FormatOutputCodeFew | src/js/utils.js:73-78 | In a format other than JSON, and for any pair, no pairs give `""` and one pair gives that pair's text alone. |
| Utils.FormatOutputCodeLines | src/js/utils.js:73-78 | When no pair's text holds a line feed, the output splits on `\n` into exactly one line per pair, in order. |
| Utils.Pad2 | src/js/utils.js:87-91 | Definition: `String(n).padStart(2, '0')`. Its property is `Pad2Digits`. |
| Utils.Pad2Digits | src/js/utils.js:87-91 | `String(n).padStart(2, '0')` for `0 <= n < 100` is exactly the two decimal digits of `n`, tens first. |
| Utils.TimestampFieldsAre | src/js/utils.js:85-92 | For a valid date, the fields are the year in decimal, then day, month + 1, hours, minutes and seconds as two digits each. |
| Utils.TimestampLayout | src/js/utils.js:83-93 | The timestamp splits on `-` into exactly six fields in the order year, day, month, hours, minutes, seconds, with the day before the month. Every field after the year is zero-padded to two digits. |
| Utils.GenerateTimestamp | src/js/utils.js:83-93 | Definition: year, day, month + 1, hours, minutes and seconds joined with `-`, every field after the year padded to two characters. Its layout is stated by the two lemmas below. |
| Utils.TimestampCharacters | src/js/utils.js:83-93 | The timestamp holds only the decimal digits `0`-`9` and dashes. |
| JsMap.Get | src/main.js:193 | `get` finds a value exactly when the key is among the map's keys. |
| JsMap.MapSet | src/main.js:195 | `set` keeps the keys distinct. |
| JsMap.MapSetGet | src/main.js:195 | After `set`, the key reads back as the new value and every other key as before. |
| JsMap.MapSetKeys | src/main.js:195 | A present key keeps its position, and a new key goes last. |
| App.Usable | src/main.js:190 | Definition: a mapping passes the filter exactly when its name and its uuid are both non-empty. |
| App.Lookup | src/main.js:190 | The lookup holds no empty identifier. |
| App.LookupLastWins | src/main.js:190 | A name is in the lookup exactly when some mapping with a non-empty name and uuid carries it. It then maps to the uuid of the last such mapping in the result list. |
| App.LookupAgrees | src/main.js:190 | When all mappings for a name carry the same uuid, the lookup holds that uuid. |
| App.Rebuild | src/main.js:189-197 | The rebuilt cache has distinct keys. |
| App.RebuildKeys | src/main.js:192-197 | The cache keys are the requested names that have a mapping, each once, in order of first occurrence in the request. Completion order plays no part. |
| App.RebuildGet | src/main.js:192-197 | A requested name with a mapping reads back as its lookup uuid, and every other name is absent. |
| App.AllCached | src/main.js:192-197 | When the lookup knows every requested name, no name is skipped. |
| App.Generated | src/main.js:180 | Online, the result is the online generator's. Offline, there is one outcome per name and none is rejected. Mapping `i` is name `i` with its offline identifier. |
| App.HasRejection | src/main.js:183 | Definition: some settled outcome is a rejection. |
| App.RejectionsCounted | src/main.js:183 | Some outcome is rejected exactly when the number of rejections is positive. This ties `hasErrors` to the count in `Generator.MappingsPlusFailures`. |
| App.RenderMappings | src/main.js:161-163 | One formatted pair per cache entry, in cache order. |
| App.UuidGenerator.constructor | src/main.js:26-37 | A new controller has no usernames, the type `''` and an empty cache. |
| App.UuidGenerator.GetUsernames | src/main.js:87-92 | The input box's names, each non-empty and trimmed. A missing input box reads as `''`. |
| App.UuidGenerator.GeneratePairs | src/main.js:140-156 | For an empty name list nothing changes and nothing is rendered. Otherwise a refetch happens exactly when the type differs from `this.type` or the names differ, in order, from `this.usernames`. Without a refetch, `usernames`, the type and the cache are untouched. With one, the new state is what `fetchMappings` promises. `hasErrors` holds exactly when a refetch happened and one of its outcomes is a rejection, which is when the error message is shown. Code is rendered exactly when the cache is non-empty. |
| App.UuidGenerator.FetchMappings | src/main.js:173-198 | The request is recorded even when no mapping results. `hasErrors` holds exactly when some outcome is a rejection. A result with zero mappings leaves the cache as it was. Otherwise the cache is rebuilt from the result's lookup in request order, whether or not there were errors. |
| App.UuidGenerator.RebuildCache | src/main.js:188-197 | After `clear` and one `set` per requested name the lookup knows, the cache is exactly `Rebuild(usernames, lookup)`. The other fields are unchanged. |
| App.UuidGenerator.UpdateInputFromFile | src/main.js:204-218 | Without an input box nothing changes. Otherwise the file's trimmed, non-empty lines that are not already names are appended on new lines, after the current text when there is any. The input is unchanged when there are none. |
| App.UuidGenerator.HandleDownload | src/main.js:229-238 | No download without result text. Otherwise the text is saved as `uuid-<timestamp>.<format>`. |
| App.NewNames | src/main.js:210-213 | The one-pass filter keeps at most one name per line. Every kept name is non-empty, trimmed, and not among the existing names. |
| App.NewNamesAreUnseen | src/main.js:210-213 | The one-pass filter over the file's lines equals the file's parsed names without the existing ones: same names, same order, repeats kept. |
| App.Unseen | src/main.js:213 | Every added name is a file name and not an existing one. |
| App.NewNamesShape | src/main.js:210-213 | Every added name is non-empty, trimmed, free of line feeds, and not among the current names. |
| App.FileRepeatsKept | src/main.js:210-213 | Repeats inside one file are not removed: a new name on two lines is added twice. |
| App.Merge | src/main.js:216 | With current text, the merged text starts with the current text followed by a line feed. |
| App.MergeParses | src/main.js:216 | Appending names this way adds exactly them, in order, to the names the input already parses to. |
| App.UploadAddsNewNames | src/main.js:207-217 | After an upload, the input parses to its old names followed by the file's new names. |
| App.DownloadFilename | src/main.js:235 | The name is `uuid-`, then the timestamp, then `.`, then the format's extension, and nothing else. |
| App.FilenameSplits | src/main.js:235 | The file name splits on its only dot into `"uuid-" + timestamp` and the format's extension. |
| App.DownloadFilenameLayout | src/main.js:233-235 | For a real timestamp, the download name splits on `.` into `"uuid-" + timestamp` and `json` or `txt`. |
| App.LookupOfOwnName | src/main.js:180-190 | Offline, every requested name is in the lookup with its own derived uuid. |
| App.OfflineCache | src/main.js:180-197 | Offline, for non-empty names, the cache holds every requested name once, in order of first request, each with its derived identifier. |
| App.OfflineUUIDNotEmpty | src/main.js:190 | Offline identifiers are never empty, so the filter of usable mappings keeps them all. |

## Left out

- `generateOnlineMappings` and `getUUID` (`src/js/generator.js:14-27`). They query a web service with at most ten requests at a time. The result they settle with is a parameter of `FetchMappings` and `GeneratePairs`. The file behind `getUUID` (`api.js`) is not part of this model.
- MD5 and the UTF-8 encoding applied before it, both from crypto-js. The hash is a function parameter `md5: string -> Digest`. Strings are sequences of Dafny characters rather than UTF-16 code units.
- `JSON.stringify(pairs, null, 2)` in `formatOutputCode`. It is a function parameter, and only the text branch is characterised.
- Promises, `await` and `Promise.allSettled`. These are modelled as the sequence of settled outcomes. Concurrent uploads in `handleFileUpload`, and any interleaving of `generatePairs` calls, are not modelled.
- The radio buttons read by `getExportFormat` and `getImportType`. Their values are parameters, so the defaults `'json'` and `'online'` for an unchecked group are not modelled.
- DOM, clipboard, drag and drop, reading the file, the highlight worker, the loader, and the error message box (`showErrorMessage`). This is display and input glue. The rendered code is returned instead of being displayed, and `hasErrors`, from `FetchMappings` and through `GeneratePairs`, is returned instead of showing a message.
- `src/js/theme.js`, `src/js/highlightWorker.js`, `vite.config.js` and `eslint.config.js`. These are UI state and build configuration.
- Utils.AreArraysEqual: the `a === b` identity shortcut and the `null` checks are not modelled, because lists here are values that cannot be null. The shortcut never changes the answer for lists of strings.
- Utils.TimestampLayout: stated for dates whose getters lie in their documented ranges, with a non-negative year. A negative year writes a leading `-`, which would add a field when the timestamp is split.
- App.UuidGenerator.FetchMappings: `this.usernames` is the same array object as the request. Sharing through aliasing is not modelled because the lists are values.
