# ConeScan core, modelled in Dafny

ConeScan is a desktop tool for RX-8 ECU tuning. This project models its
sequential core and proves properties of it:

- **Identity fields** (`src/definition.cpp`). `get_address` turns the text
  of an identity field into a 32-bit address, or reports how many characters
  it could not read. `definition_add_value` routes one `(fieldName, value)`
  pair into the matching slot of the `Definition` record.
- **Definition construction** (`src/definition_parse.cpp`). The
  `DefinitionParse` handle holds the open document and its path. The loaders
  count and allocate the scaling array and the two-level table tree of the
  first `rom` element and fill them in document order. Each table is bound to
  the first scaling of its name.
- **The memory download** (`src/uds_request_download.cpp`).
  `uds_request_start_download` guards and registers a request. The worker
  opens diagnostic session 0x85, does the seed/key exchange of ISO 14229-1
  security access and reads the range chunk by chunk into a zeroed payload.
  `uds_request_complete` releases the request.
- **The older loaders** (`src/conescan.cpp:53-226`). These are the
  global-state versions of close, `loadScaling(s)` and `loadTable(s)`. Their
  `loadTable` copies fewer members and their `loadTables` reallocates
  `tableSelect`.

Files:

- `options.dfy`: `Option`.
- `c_strings.dfy`: the C library calls the code relies on. These are
  `strstr(.., "0x")`, `strtol`/`strtoll` (white space, sign, hex prefix,
  clamping) and `strcmp`. `long` and `unsigned long` are 32 bits, as on the
  Windows and wasm32 builds. `long long` is 64 bits.
- `xml_records.dfy`: the parsed document as tinyxml2 presents it. The walk
  `FirstChildElement(tag)`/`NextSiblingElement(tag)` is the filtered child
  list `ChildElements`.
- `definition.dfy`: `get_address`, the identity fields, `struct Scaling`,
  `struct Table` and the `Definition` class.
- `definition_parse.dfy`: the loaders and the `DefinitionParse` class.
- `conescan.dfy`: the older loaders and the application globals as the
  `ConeScan` class.
- `uds_request_download.dfy`: the request and thread-data classes, start and
  complete, and the worker with its transfer loop.

Modelling choices:

- The ECU library (`RX8`) is an oracle. The `Ecu` value fixes what each call
  answers.
- The other thread clearing `downloadinProgress` is modelled as a schedule
  `cancel: nat -> bool`. `cancel(k)` means the flag was found cleared before
  chunk `k`.
- Chunk `k` is read at `startAddress + k * chunk`. The transfer loop stops at
  the first chunk that is cancelled or whose read fails (`StopIndex`). The
  payload is the chunks that were read followed by zeros (`Payload`). A failed
  read counts as read: whatever bytes it left are part of its answer
  (`Written`).
- The struct writers (`loadScaling`, `loadTable`) are functions from the old
  record to the new one. The loops that call them are methods over the
  definition's arrays.

## Model

| member | source | states |
|---|---|---|
| CStrings.StrToInteger | src/definition.cpp:22 | A conversion consumes at most the whole text, stays within the result type's range, and gives 0 when no digit was read |
| CStrings.StrCmp | src/definition.cpp:18 | `strcmp` answers -1, 0 or 1, and 0 exactly when the texts are equal |
| CStrings.FindHexMarker | src/definition.cpp:14 | `strstr(param, "0x")` finds the first "0x" and only it; no result means no "0x" anywhere |
| CStrings.DigitsBelowLetters | src/definition.cpp:18 | A text starting with a decimal digit compares below "abcdef", so the base-16 fallback is not taken for it |
| CStrings.ToDigitsValue | src/definition.cpp:22 | The digit string of `n` reads back as `n` |
| CStrings.DecimalConversion | src/definition.cpp:22 | Decimal digits followed by a non-digit convert to their value and stop at the non-digit |
| CStrings.HexConversion | src/definition_parse.cpp:111 | "0x" and hex digits convert in base 16 to the digits' value and consume the whole text |
| CStrings.HexDigitsConversion | src/definition_parse.cpp:111 | Hex digits without "0x", followed by text that does not start with a hex digit, convert to the clamped value of the digits and stop at the end of the digits |
| XmlRecords.ChildElements | src/definition_parse.cpp:79-83 | The sibling walk visits only elements with the tag, and no more than the children |
| XmlRecords.ChildElementsComplete | src/definition_parse.cpp:79-83 | An element is visited exactly when it is a child with the tag |
| XmlRecords.ChildElementsAppend | src/definition_parse.cpp:87-98 | The walk over a list is the walk over its first part followed by the walk over the rest, in document order |
| XmlRecords.CountElements | src/definition_parse.cpp:79-83 | The counting loop counts exactly the elements the walk visits |
| XmlRecords.FirstTagged | src/definition_parse.cpp:225-229 | The index found is that of a child with the tag, no earlier child has it, and when none is found no child has it |
| XmlRecords.FirstChildElementIsFirstTagged | src/definition_parse.cpp:225-229 | `FirstChildElement(tag)` is the first child that carries the tag, and NULL exactly when no child does |
| XmlRecords.IntAttribute | src/definition_parse.cpp:112-113 | `IntAttribute` lies in the range of `int` and is 0 for a missing attribute |
| Definitions.GetAddress | src/definition.cpp:9-28 | The number of characters left over is positive and at most the length of the text |
| Definitions.AddressStatus | src/definition.cpp:24-27 | The return value is 0 exactly when the address is written, and minus the number of characters left over otherwise |
| Definitions.GetAddressStartsAtMarker | src/definition.cpp:14-22 | With a "0x" in the text, everything before the first one is ignored: the result is that of the text from the marker on |
| Definitions.DecimalAddressRoundTrip | src/definition.cpp:11-27 | A decimal numeral without "0x" is read in base 10, and its value modulo 2^32 is written |
| Definitions.HexAddressRoundTrip | src/definition.cpp:14-27 | Any text without "0x", then "0x" and a hex numeral, is read from the marker in base 16, and the value modulo 2^32 is written |
| Definitions.NoMarkerAfterDigits | src/definition.cpp:14 | Digits followed by a text that has no "0x" and does not start with 'x' contain no "0x" |
| Definitions.TrailingTextReported | src/definition.cpp:22-24 | A numeral followed by non-digit text leaves that text over: the address is not written and the result is minus its length |
| Definitions.NameOfSelects | src/definition.cpp:42-68 | Every known field has a name that selects it in the `strcmp` chain |
| Definitions.FieldNamed | src/definition.cpp:42-71 | The chain selects a known field only for exactly that field's name; any other name is unknown |
| Definitions.AddField | src/definition.cpp:34-71 | A NULL or empty value, or an unknown field name, leaves the record unchanged |
| Definitions.AddFieldSlot | src/definition.cpp:41-74 | A string slot changes exactly when the pair names it with a non-empty value, and then becomes a copy of the value; no other slot changes |
| Definitions.AddFieldAddress | src/definition.cpp:44-46 | The address changes only for "internalidaddress" with a value `get_address` reads completely, and then to what it read; an error leaves it unchanged |
| Definitions.Definition.constructor | include/definition.h:3-17 | A fresh record is all zero: no strings, address 0, no scalings and no tables |
| Definitions.Definition.Clear | src/definition_parse.cpp:23-24 | After `definition_deinit` and `memset` the record is all zero and its counts match its arrays |
| Definitions.Definition.AddValue | src/definition.cpp:30-75 | The identity becomes `AddField` of the old identity; the scalings and tables are unchanged |
| Definitions.AddNodeSlot | src/definition_parse.cpp:232-235 | One `romid` child changes a string slot exactly when it names the slot with a non-empty first child value |
| Definitions.UnwrittenSlotKept | src/definition_parse.cpp:230-238 | A slot that no `romid` child names with a non-empty value keeps its value through the loop |
| Definitions.LastWriterWins | src/definition_parse.cpp:230-238 | After the loop, a slot holds the value of the last `romid` child that names it with a non-empty value |
| Definitions.AddFields | src/definition_parse.cpp:230-238 | A `romid` loop whose children all lack a value, have an empty one or carry an unknown tag leaves the identity unchanged |
| DefinitionParsing.LoadedScaling | src/definition_parse.cpp:27-72 | A present `name` replaces the name and a missing one keeps it; `min`, `max` and `inc` are always overwritten from their attributes |
| DefinitionParsing.LoadedScalingFromZero | src/definition_parse.cpp:85-94 | Loaded into a zeroed slot, each member of a scaling is its attribute, or NULL when the attribute is missing |
| DefinitionParsing.LoadScalings | src/definition_parse.cpp:74-99 | `numScalings` grows by the number of `scaling` children. Slot i holds the i-th child in document order, also when its name is missing. The remaining slots stay zero and nothing else changes |
| DefinitionParsing.FirstNamed | src/definition_parse.cpp:119-124 | The search finds the first scaling of the name. No earlier scaling has it, and when nothing is found no scaling has it |
| DefinitionParsing.LoadedTable | src/definition_parse.cpp:101-128 | The address is the base-16 `strtol` of the address text, within `long`. `level` and `elements` are their `IntAttribute`s. Name, type, category and scaling name each become their attribute when present and keep their old value when not. The binding becomes the first scaling of the table's scaling name, or stays as it was when there is none. The sub-tables are untouched |
| DefinitionParsing.LoadedTableAddress | src/definition_parse.cpp:110-111 | An address of hex digits without "0x", followed by any text that does not start with a hex digit, gives the value of the digits clamped to `long`; the trailing text is ignored |
| DefinitionParsing.LoadedTableBinding | src/definition_parse.cpp:119-127 | If some scaling carries the table's scaling name, the binding is set to the first such scaling |
| DefinitionParsing.LoadTable | src/definition_parse.cpp:101-128 | The loop over `numScalings` gives the record that `LoadedTable` describes |
| DefinitionParsing.AllocatedRoot | src/definition_parse.cpp:160-175 | The counting pass sets each root's `numTables` to its number of direct `table` children and allocates that many |
| DefinitionParsing.LoadedSubtables | src/definition_parse.cpp:184-192 | Every direct sub-table is loaded, one per child |
| DefinitionParsing.LoadedRoot | src/definition_parse.cpp:178-195 | A loaded root keeps the count of its direct sub-tables and has that many loaded sub-tables |
| DefinitionParsing.LoadTables | src/definition_parse.cpp:130-201 | `numTables` is reset and becomes the number of root tables. Root i is the i-th `table` child, loaded together with its direct sub-tables and their scaling bindings. The scalings and identity are unchanged |
| DefinitionParsing.AllocateSubtables | src/definition_parse.cpp:160-175 | After the second pass every root holds its count of direct sub-tables and that many zeroed records |
| DefinitionParsing.LoadRoots | src/definition_parse.cpp:178-195 | After the last pass every root and its sub-tables are loaded in document order |
| DefinitionParsing.LoadRoot | src/definition_parse.cpp:181-192 | One root is loaded first, then each of its sub-tables |
| DefinitionParsing.LoadRootSubtables | src/definition_parse.cpp:184-192 | The inner loop loads sub-table j from the j-th `table` child and changes nothing else of the root |
| DefinitionParsing.AddFieldsStep | src/definition_parse.cpp:231-237 | One pass of the `romid` loop passes only that child to `definition_add_value`, and only when it has a first child node |
| DefinitionParsing.AddIdentity | src/definition_parse.cpp:229-238 | The `romid` loop leaves the identity that `AddFields` describes and does not touch the scalings or the tables |
| DefinitionParsing.DefinitionParse.constructor | include/definition_parse.h:11-21 | A new handle has no document and no path |
| DefinitionParsing.DefinitionParse.SetMetadataFilePath | src/definition_parse.cpp:248-262 | An empty path returns false and sets nothing; otherwise an equal copy is stored and true returned |
| DefinitionParsing.DefinitionParse.CloseMetadataFile | src/definition_parse.cpp:11-25 | The document and the path are NULL and the definition is all zero |
| DefinitionParsing.DefinitionParse.LoadMetadataFile | src/definition_parse.cpp:203-246 | A failed load closes everything and returns false. A root other than `roms` returns true with the document open and nothing loaded. A `roms` document fills the identity, then the scalings, then the tables, and releases the document while keeping the path |
| ConeScanLoaders.LoadScalingGuarded | src/conescan.cpp:67-112 | A NULL element or NULL slot changes nothing. Otherwise each present string attribute replaces its member, a missing one keeps it, and `min`, `max` and `inc` are always overwritten |
| ConeScanLoaders.LoadTableGuarded | src/conescan.cpp:153-165 | A NULL record or element changes nothing. Otherwise `level` and `elements` are read, and name, category and scaling name are copied when present |
| ConeScanLoaders.LoadTableGuardedKeeps | src/conescan.cpp:153-165 | The older `loadTable` never writes the address, the type, the scaling binding or the sub-tables |
| ConeScanLoaders.LoadersAgree | src/conescan.cpp:153-165 | Where both `loadTable`s write a member, they write the same value |
| ConeScanLoaders.OldLoadedRoot | src/conescan.cpp:191-225 | A root loaded by the older loaders has its sub-table count and that many sub-tables, with address 0, no type and no binding |
| ConeScanLoaders.ConeScan.constructor | src/conescan.cpp:19-27 | The globals start with no path, no document, a zero definition and a NULL `tableSelect` |
| ConeScanLoaders.ConeScan.CloseMetadataFile | src/conescan.cpp:53-65 | Both handles are NULL and the definition is zero; `tableSelect` is kept |
| ConeScanLoaders.ConeScan.LoadScalings | src/conescan.cpp:114-151 | `numScalings` grows by the number of `scaling` children without a reset. Slot i holds the i-th child, the rest stay zero and the tables are unchanged |
| ConeScanLoaders.ConeScan.LoadTables | src/conescan.cpp:167-226 | `numTables` is reset, then counted. `tableSelect` is a new all-false array with one entry per root, and every root and its sub-tables are loaded in document order |
| ConeScanLoaders.AllocateSubtables | src/conescan.cpp:191-207 | Each root's sub-table count is added to the zero it starts with, and that many sub-tables are allocated |
| ConeScanLoaders.LoadRoots | src/conescan.cpp:209-225 | After the last pass every root and its sub-tables are loaded in document order |
| ConeScanLoaders.LoadRoot | src/conescan.cpp:213-222 | One root is loaded first, then each of its sub-tables |
| UdsDownload.UdsRequestDownload.constructor | include/uds_request_download.h:14-33 | A request holds the start, size and chunk size it was given, with no payload and not in progress |
| UdsDownload.ThreadData.constructor | src/uds_request_download.cpp:14-20 | The shared thread data starts empty: no ECU, request, seed or key |
| UdsDownload.StartDownload | src/uds_request_download.cpp:22-49 | A start while a download is registered, or with chunk or transfer size 0, changes nothing. Otherwise the ECU and request are registered, the seed and key cleared, and the request marked in progress |
| UdsDownload.Complete | src/uds_request_download.cpp:126-146 | The flag is cleared, the payload is NULL and the registration is gone, so the next start is accepted |
| UdsDownload.ChunkCount | src/uds_request_download.cpp:86-98 | The counted chunks fit into the range, and every whole chunk is counted when the end address does not wrap; none is counted when it wraps |
| UdsDownload.StopIndex | src/uds_request_download.cpp:97-106 | The loop stops at the first chunk found cancelled or whose read fails, or runs to the end when there is none |
| UdsDownload.Written | src/uds_request_download.cpp:101-106 | The stopping chunk reached the payload exactly when the loop stopped before the end and the flag was still set, so its read ran and failed |
| UdsDownload.Downloaded | src/uds_request_download.cpp:97-108 | The bytes of the first `stop` chunks are `stop * chunk` bytes long |
| UdsDownload.Payload | src/uds_request_download.cpp:82-108 | The payload stays `transferSize` bytes long whatever number of chunks was read |
| UdsDownload.ChunkAddressNoWrap | src/uds_request_download.cpp:99-103 | Read k targets `startAddress + k * chunk` while that stays below 2^32 |
| UdsDownload.ChunkInRange | src/uds_request_download.cpp:98-103 | Every chunk the loop admits lies inside the payload and below 2^32 |
| UdsDownload.LoopTest | src/uds_request_download.cpp:98 | The test `address < endAddress` holds exactly for the chunks below the count |
| UdsDownload.DownloadedChunk | src/uds_request_download.cpp:97-108 | Chunk k of the payload holds what the read of chunk k wrote |
| UdsDownload.LastProgress | src/uds_request_download.cpp:107 | With no chunk read the progress keeps its old value. Otherwise it is `transferBytes / transferSize` before the increment, and it lies in [0, 1) |
| UdsDownload.UnlockIgnored | src/uds_request_download.cpp:78-82 | Whether the transfer runs does not depend on the answer to `unlock`: a failed key exchange is only logged |
| UdsDownload.FullTransfer | src/uds_request_download.cpp:97-108 | With no cancellation and no failed read, every chunk is read and the payload is the whole range |
| UdsDownload.WriteChunk | src/uds_request_download.cpp:103 | `readMem` replaces exactly the chunk at the cursor and leaves the rest of the payload unchanged |
| UdsDownload.Worker | src/uds_request_download.cpp:50-124 | A failed session, seed or key leaves the request as it was, still in progress. Otherwise the address, byte count and progress are those of the chunks before the stop. The payload holds those chunks, plus the stopping chunk when its read failed. The flag is cleared, and the seed and key are freed either way |
| UdsDownload.Transfer | src/uds_request_download.cpp:82-110 | The payload is `transferSize` fresh bytes and `endAddress` is `startAddress + transferSize` modulo 2^32. After the loop the flag is cleared |
| UdsDownload.TransferLoop | src/uds_request_download.cpp:97-108 | `address - startAddress`, `transferBytes` and the cursor advance in lockstep. The loop ends after the chunks before the stop, with the last published progress; a failed read's bytes stay in its chunk |
| UdsDownload.TransferChunk | src/uds_request_download.cpp:99-107 | One pass stops exactly when the flag was cleared or the read fails, changing no address or count. A cleared flag changes no byte; any read writes its chunk. Without a stop it publishes the progress and advances by one chunk |

## Left out

- Console logging, `printf`, `fprintf` and `hexdump` are output only and are not modelled.
- Thread creation, `WaitForMultipleObjects` and the thread handle and id in `uds_request_download.cpp` are left out. The worker is a sequential method run after an accepted start. The other thread's write of the flag is the `cancel` schedule. On non-Windows builds no thread is started at all, and the model does not capture that.
- The ECU transport (`initDiagSession`, `getSeed`, `calculateKey`, `unlock`, `readMem`) and the key algorithm live in a library that is not part of this model. Their answers are inputs (`Ecu`).
- UdsDownload.Worker: requires `transferSize` to be a multiple of `transferChunkSize`. Otherwise the last `readMem` writes past the end of the payload, which the source does not guard against.
- UdsDownload.LastProgress: progress is the exact ratio. The `float` rounding of `transferProgress` is not modelled.
- The `min`, `max` and `inc` scaling members are kept as the attribute text that `FloatAttribute` would convert. Floating-point conversion is not modelled, and a missing attribute is `None` where the source stores 0.0.
- Ownership is not modelled: `malloc`, `free`, `delete` and the missing NUL slot of `malloc(length)` in `definition_add_value`. Strings are values.
- `definition_scaling_add_string_value`, `definition_new_scalings`, `definition_new_tables` and `definition_deinit` are not part of this model. They are taken to copy a non-NULL value and keep the slot on NULL, to allocate zeroed records of the current count, and to release the record before the `memset`.
- DefinitionParsing.LoadedTable: requires an `address` attribute and a scaling name. `strtol(NULL)` and the `strcmp` of a NULL name are undefined in the source. A scaling without a name never matches. `assert(definition->scalings)` is not modelled.
- DefinitionParsing.DefinitionParse.LoadMetadataFile: requires a `roms` document to have a `rom` with a `romid`, because the source dereferences both without a check. `LoadFile` and tinyxml2 parsing are replaced by the already-parsed root element.
- The `romid` loop starts at `FirstChild()`, which may be a text or comment node, then goes from element to element. The model has element children only, each with the value of its first child node as `text`.
- `IntAttribute` is modelled as the decimal prefix of the text clamped to `int`. tinyxml2 rejects malformed text instead, and that is not captured.
- CStrings.StrCmp: returns only -1, 0 or 1, as the Windows C library does. With a `strcmp` that returns character differences, the `== 1` test of `get_address` is true for fewer texts.
- CStrings.StrToInteger: its contract does not state the value or where the conversion stops. DecimalConversion, HexConversion and HexDigitsConversion state these for decimal numerals and for hex digits with and without "0x". Other shapes, with leading white space or a sign, are covered only by the range clause. `errno` is not modelled.
- The thirteen identity members of `struct Definition` are grouped in one `Identity` value. Table sub-arrays are sequences rather than separately allocated arrays, so aliasing between them is not captured.
- The older `loadMetadataFile` (`src/conescan.cpp:228-269`), the rendering code, file dialogs, SQLite storage and the Emscripten servers are outside the modelled core.
- Decoding of table cells appears in no modelled file and is left out.
- As an exact ratio the published progress never reaches 1: the last value is `(n - 1) * chunk / size` for n chunks (LastProgress). The `float` division of the source can round this to 1.0 when `chunk / size` is below about 2^-24.
- Builds where `long` is 64 bits (LP64, as on native Linux and macOS builds) are not modelled. There `get_address` would keep 64 bits rather than reduce modulo 2^32, and `strtol` in `loadTable` would clamp at 2^63.
