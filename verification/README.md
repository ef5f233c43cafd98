# Entity Manager: a verified model

Entity Manager builds a BMC's inventory out of configuration files and what it finds on D-Bus; its
companion daemons read FRU EEPROMs and watch presence pins. This project models the parts of it whose
correctness takes more than reading one function, and proves what those parts are for.

- **FRU images** (`Bytes`, `Decimals`, `SixBit`, `FruFields`, `FruNames`, `FruEdit`, `FruImage`, `FruDecode`,
  `FruFormat`, `FruUpdate`, `FruEditDecode`, `FruKeys`, `FruLayout`, `FruImageLayout`). The image of the IPMI Platform
  Management FRU Information Storage Definition v1.0 (sections 8, 10-13 and 17) is taken apart into areas, one field of
  an area is set, the area is re-padded and re-checksummed, and the image is put together and decoded again. Byte
  splices are shown to be updates of a list of fields, and an edit followed by decoding is shown to change exactly the
  edited entry. `FruLayout` and `FruImageLayout` state the same laws on the bytes of the standard's layouts and on the
  printed report.
- **Reading FRU devices** (`FruReader`, `FruReadBack`, `FruGigabyte`). The block cache is shown to agree with the device
  in every state it can get into, and reading an assembled image back gives the image.
- **Probes and scans** (`ProbeLexer`, `ProbeWords`, `Probe`, `ProbeSelection`, `MatchOnePlacement`, `Scan`, `ScanOrder`,
  `SystemConfiguration`). Probe statements are lexed and evaluated; the chain of scan passes ends in the least set of
  passed names, whatever the order; devices get the lowest free numbers.
- **The rescan protocol** (`Rescan`): a state machine over wake-ups, timer and scan completions, posted functions and
  shutdown, with the handlers as methods that are proved equal to its steps.
- **Indexes** (`Topology`, `TopologyCalls`, `Exposes`, `GpioPresence`): each is shown to be a function of the calls made
  on it; `TopologyCalls` says what two boards added to a topology are reported as.

Run `dafny verify dfyconfig.toml` in this directory.

## How the model is laid out

Byte vectors that a C++ function edits through a reference are sequences that the method takes and returns,
with the result stated for both success and failure (on failure it is the old value). Objects that keep state are
classes: `FRUReader`, `PerformScan`, `Inventory`, `EntityManager`, `Topology`, `Entity`, `DevicePresence`,
`GPIOPresenceManager`. Loops of the source are loops here; each method is proved against a function or a predicate,
and what is promised is proved about that.

Foreign code is a parameter: the block read function (any function, even one whose answers change), the JSON
parser and the property comparison of a probe (`Bus.parse`, `Bus.matches`), the name template
(`Rules.deviceNames`, `Rules.restoredNames`, `Naming.deviceName`), the schema check (`matchesSchema`), unpacking and
querying a board's compressed XML (`macOf`), and the GPIO line lookup (`lines`).
The build option `ENABLE_FRU_AREA_RESIZE` is the parameter `resize`. What the environment does to the rescan protocol is a
list of inputs, over which every theorem is quantified; queued functions may run in any order.

## Where the code falls short of what is expected of it

- An info area that is the last thing in the image and only one block long is refused as truncated
  (`src/fru_device/fru_utils.cpp:487-493`), so an edit can succeed and leave an image that no longer decodes.
  `FruEditDecode.EditThenDecode` has the exact condition, on the image before the edit, and
  `FruEditDecode.ShortLastExample` an instance.
- Some property names select a field that is reported under another name (`BOARD_INFO_AM01`).
  `FruNames.ReportedUnderItsName` has the exact condition.
- A 6-bit packed string whose length is 3 modulo 4 decodes with a space too many (`SixBit.UnpackPacked`).
- `MATCH_ONE` is commented not to affect the outcome (`src/entity_manager/perform_probe.cpp:92-98`). In front of a probe
  it turns the first operand into FALSE, and directly behind AND or OR it makes the evaluation ignore the operand
  behind it. `MatchOnePlacement.MatchOneKeepsVerdict` says exactly when the verdict is the same all the same, and
  `MatchOnePlacement.MisplacedExamples` has instances.
- A configuration that gives a device another configuration's name keeps that one from being probed, depending on
  the order. `ScanOrder.OrderExactly` has the exact condition under which the order never matters, whatever the probes,
  and `ScanOrder.ClosedExactly` shows it to be the one under which the chain always ends in a closed set;
  `ScanOrder.OrderMatters` and `ScanOrder.OrderMattersExample` are two orders that leave different names.
- Probing associations outlive the board, because they are stored by path and erased by name:
  `Topology.ProbingExplained` says exactly when one is reported, `Topology.ProbingOutlivesBoard` makes the calls.
- A device whose whole name is the number, or another text that reads as one, gets an empty name
  (`SystemConfiguration.NumberReadBack`, `SystemConfiguration.BareNumberIsNoName`).
- A debounce wait that ends with an error can lose the wake-up (`Rescan.LostExample`), unless an earlier wait has run out
  and its completion is still queued (`Rescan.OlderAnswersExample`). `Rescan.RescanFollowsExactly` has the exact condition.
- Nothing is ever pruned: a scan first strips every applied name from the missing records, which are the applied ones
  (`src/entity_manager/perform_scan.cpp:871-877`). `Rescan.NothingPruned` is about every run, and
  `Rescan.ConfigurationGrows` and `Rescan.AnnouncedAtMostOnce` say what follows.
- An image whose Internal area has a large second byte reads back with bytes behind it, because the reader takes that
  byte for a length (`src/fru_device/fru_utils.cpp:902-915`). `FruReadBack.ReadBackExactly` has the exact condition.

## Model

| member | source | states |
|---|---|---|
| Bytes.ChecksumZeroesTheSum | src/fru_device/fru_utils.cpp:630-641 | the checksum byte brings any run of bytes to a sum of 0 modulo 256 |
| Bytes.ChecksumIsUnique | src/fru_device/fru_utils.cpp:630-641 | no other byte does |
| Bytes.SumFirst | src/fru_device/fru_utils.cpp:630-641 | the sum counts every byte once, from the front as from the back |
| SixBit.DecodeSixBit | src/fru_device/fru_utils.cpp:186-202 | the accumulator loop gives the bytes' little-endian bit stream cut into sextets, floor(4n/3) characters, with at most 12 bits in the accumulator |
| SixBit.UnpackPacked | src/fru_device/fru_utils.cpp:186-202 | decoding inverts the packing of section 13 for every string, except for one trailing space exactly when the length is 3 modulo 4 |
| SixBit.SixBitThree | src/fru_device/fru_utils.cpp:186-202 | three bytes give the four characters of their bits 0-5, 6-11, 12-17 and 18-23, from the blank on |
| SixBit.SixBitEnd | src/fru_device/fru_utils.cpp:186-202 | one byte left over gives one character, two give two |
| FruFields.FieldsThenRest | src/fru_device/fru_utils.cpp:683-692 | the parsed fields, written out, and the unparsed rest make up the bytes |
| FruFields.ParseEncoded | src/fru_device/fru_utils.cpp:683-692 | parsing gives an encoded field list back, whatever follows it |
| FruNames.FieldNameResolves | src/fru_device/fru_utils.cpp:1225-1307 | the name a field is reported under selects that very field |
| FruNames.ReportedUnderItsName | src/fru_device/fru_utils.cpp:1275-1298 | a name that selects a field is the name the field is reported under if and only if it is listed or its number has no leading zero and stands directly behind the area prefix |
| FruNames.NonCanonicalExample | src/fru_device/fru_utils.cpp:1275-1298 | a concrete name that selects a field reported under another one |
| FruEdit.FindOrCreateField | src/fru_device/fru_utils.cpp:1220-1326 | succeeds exactly when the name selects a field the walk can reach; the bytes are then the old ones with empty fields inserted up to it, and the index and length are that field's |
| FruEdit.FindEndOfFieldMarker | src/fru_device/fru_utils.cpp:1328-1341 | the last 0xC1 in front of the checksum position, if any |
| FruEdit.UpdateAreaChecksum | src/fru_device/fru_utils.cpp:1083-1111 | succeeds exactly on whole, non-zero blocks; then the last byte makes the sum zero and no other byte changes |
| FruEdit.SetField | src/fru_device/fru_utils.cpp:1352-1428 | when it succeeds, in terms of value length, reachability, markers and block count; the new bytes on success and the old ones on failure |
| FruEdit.SettableWhen | src/fru_device/fru_utils.cpp:1352-1428 | on a well-formed area, with resizing on, an edit succeeds if and only if the value's length is legal, the name selects a field, and its custom number is not above the size of the walked bytes |
| FruEdit.EditIsListUpdate | src/fru_device/fru_utils.cpp:1352-1428 | an edit is an update of the field list: padded with empty fields up to index k, field k replaced by (0xC0 plus length, value); header bytes other than the length byte stay; whole blocks, zero sum, right length byte |
| FruEdit.EditKeepsInvariant | src/fru_device/fru_utils.cpp:1352-1428 | after an edit the end marker is reachable, the length byte counts the blocks and the sum is zero, if and only if the area has at most 255 blocks |
| FruEdit.EditsKeepInvariant | src/fru_device/fru_utils.cpp:1352-1428 | the same after any run of edits, refused ones included |
| FruImage.AssembleFruData | src/fru_device/fru_utils.cpp:1430-1484 | succeeds exactly when every area is 8-byte aligned; the result is header plus areas, and the old data on failure |
| FruImage.DisassembleFruData | src/fru_device/fru_utils.cpp:1168-1212 | succeeds exactly when every area's size is known and inside the image, and gives the areas' bytes |
| FruImage.AssembleDisassemble | src/fru_device/fru_utils.cpp:1113-1212 | taking an assembled image apart gives the areas back if and only if the length bytes are right and a present Internal area is followed by another |
| FruImage.HeaderTells | src/fru_device/fru_utils.cpp:1430-1484 | the condition that areas start within 255 blocks is exactly that the header tells where each one starts |
| FruImage.ValidateHeader | src/fru_device/fru_utils.cpp:694-746 | accepts exactly version 1, zero pad, pairwise distinct non-zero offsets, right checksum |
| FruImage.HeaderAccepted | src/fru_device/fru_utils.cpp:694-746 | that is: the eight bytes sum to a multiple of 256, the first is 1, the seventh 0, and no two offsets but zeros agree |
| FruImage.AssembledHeaderValid | src/fru_device/fru_utils.cpp:1430-1484 | an assembled header is valid and its non-zero offsets strictly increase |
| FruImage.VerifyOffset | src/fru_device/fru_utils.cpp:236-299 | accepts exactly when no other area starts inside the given one |
| FruImage.DisjointBlocks | src/fru_device/fru_utils.cpp:236-299 | that is: no block of the area, its first one included, is another area's first |
| FruImage.AssembledDisjoint | src/fru_device/fru_utils.cpp:236-299 | in an assembled image no area starts inside another info area |
| FruDecode.DecodeFRUData | src/fru_device/fru_utils.cpp:112-212 | ok, end or error exactly as the type/length byte, the space left and the language say; the decoded text and the new position |
| FruDecode.TextForms | src/fru_device/fru_utils.cpp:135-209 | the two top bits of the type/length byte choose hexadecimal, BCD plus, 6-bit text, or the bytes themselves |
| FruDecode.TwoDigits | src/fru_device/fru_utils.cpp:135-202 | a binary or BCD byte gives two digits, that of its high half first |
| FruDecode.DigitsInOrder | src/fru_device/fru_utils.cpp:41-45 | the sixteen digits of each form, written out |
| FruDecode.DecodeField | src/fru_device/fru_utils.cpp:391-460 | adds exactly the field's entry, the text less its trailing spaces and NULs and nothing else, and for custom MAC texts the derived one; otherwise the code says warning or error as the number of listed fields requires |
| FruDecode.DecodeFields | src/fru_device/fru_utils.cpp:593-608 | the field loop's verdict and report, also when it ends with an error, as a function of the area's bytes |
| FruFormat.DecodeArea | src/fru_device/fru_utils.cpp:511-621 | one area's verdict (checksum and padding warn) and its entries on top of those before, also when it ends with an error |
| FruFormat.ParseMultirecordUUID | src/fru_device/fru_utils.cpp:301-389 | the report gains exactly the UUID of the first system-unique-ID record the record walk reaches, and nothing when the area is absent, outside the image or overlapped |
| FruFormat.FormatIPMIFRU | src/fru_device/fru_utils.cpp:462-627 | verdict and report of a whole image, area by area, up to the area that ends it with an error if there is one |
| FruFormat.FormatAssembled | src/fru_device/fru_utils.cpp:462-627 | an assembled image decodes to what its areas decode to, unless its last area is an info area of one block, which is refused |
| FruUpdate.CreateDummyArea | src/fru_device/fru_utils.cpp:1487-1535 | exactly the three info areas can be created, with the bytes of an empty area |
| FruUpdate.DummyAreaFields | src/fru_device/fru_utils.cpp:1487-1535 | a created area keeps the area invariant and holds one empty field for every listed name |
| FruUpdate.UpdateAddProperty | src/fru_device/fru_utils.cpp:1835-1916 | when it succeeds; on success the image of the edited areas, on failure the data unchanged |
| FruEditDecode.EditThenDecode | src/fru_device/fru_utils.cpp:1835-1916 | after a successful edit of a decodable image, the result decodes if and only if, judged on the image before the edit, it does not come to end in a one-block info area (`EndsLong`: another area that is last is longer than a block, or the edited one's marker moves behind the first block), and then every report entry is as `EntryAfter` says |
| FruEditDecode.LongWhen | src/fru_device/fru_utils.cpp:487-493 | the condition on the edited image is the condition on the image before the edit |
| FruEditDecode.OutgrowsByLength | src/fru_device/fru_utils.cpp:1352-1428 | without a stray marker byte in the padding, the edited area outgrows a block exactly if header and new field list fill seven bytes |
| FruEditDecode.BoardOutgrows | src/fru_device/fru_utils.cpp:1352-1428 | an edited Board area never fits one block |
| FruEditDecode.EditedEntry | src/fru_device/fru_utils.cpp:1835-1916 | the edited name reads as the value without trailing spaces and NULs, with a MAC entry exactly for custom fields that spell one |
| FruEditDecode.OtherEntries | src/fru_device/fru_utils.cpp:1835-1916 | every other entry of the area reads as before, except that skipped-over fields now read as empty |
| FruEditDecode.ShortLastExample | src/fru_device/fru_utils.cpp:487-493 | an image whose edit succeeds and whose result is refused |
| FruKeys.KeyNamesDiffer | src/fru_device/fru_utils.cpp:391-460 | distinct entries of a report are printed under distinct names, so none overwrites another |
| FruKeys.FormatReported | src/fru_device/fru_utils.cpp:462-627 | every key of a report is of one of those kinds |
| FruKeys.EditedNameReads | src/fru_device/fru_utils.cpp:1835-1916 | after an edit the printed report maps the field's name, and the name the edit was made under whenever that is canonical, to the first n bytes of the value, where all bytes behind them are spaces or NULs and the last of them is neither |
| FruLayout.BoardArea | src/fru_device/fru_utils.cpp:551-621 | an area `[1, len, lang, m0, m1, m2]`, then any valid fields, then whatever stops them, then a checksum byte: its verdict, its language and date, and under every field's printed name that field's text |
| FruLayout.ChassisArea | src/fru_device/fru_utils.cpp:544-621 | the same for `[1, len, type]` and the fields of a Chassis area |
| FruLayout.ProductArea | src/fru_device/fru_utils.cpp:575-621 | the same for `[1, len, lang]` and the fields of a Product area |
| FruLayout.BoardEdited | src/fru_device/fru_utils.cpp:1352-1428 | editing such a Board area gives `[1, blocks, lang, m0, m1, m2]`, the list with the value in the named field and empty fields up to it, the end marker, whole blocks and a sum of zero |
| FruLayout.OtherEdited | src/fru_device/fru_utils.cpp:1352-1428 | the same for Chassis and Product areas and their three bytes |
| FruLayout.FreshChassis | src/fru_device/fru_utils.cpp:1487-1535 | a created Chassis area: one header byte of zero, two empty fields |
| FruLayout.FreshBoard | src/fru_device/fru_utils.cpp:1487-1535 | a created Board area: four header bytes of zero, five empty fields |
| FruLayout.FreshProduct | src/fru_device/fru_utils.cpp:1487-1535 | a created Product area: one header byte of zero, seven empty fields |
| FruLayout.ChassisNames | src/fru_device/fru_utils.cpp:391-414 | the printed names of the listed Chassis fields |
| FruLayout.BoardFieldNames | src/fru_device/fru_utils.cpp:391-414 | those of the first three Board fields |
| FruLayout.MoreBoardFieldNames | src/fru_device/fru_utils.cpp:391-414 | and of the other two |
| FruLayout.ProductNames | src/fru_device/fru_utils.cpp:391-414 | those of the first four Product fields |
| FruLayout.MoreProductNames | src/fru_device/fru_utils.cpp:391-414 | and of the other three |
| FruLayout.CustomNames | src/fru_device/fru_utils.cpp:406-413 | fields behind the listed ones are numbered from 1 |
| FruImageLayout.ImageBytes | src/fru_device/fru_utils.cpp:1430-1484 | the eight header bytes of an assembled image, in terms of the lengths of Internal, Chassis, Board, Product and MultiRecord, and the areas behind them in that order |
| FruImageLayout.PartsInOrder | src/fru_device/fru_utils.cpp:462-621 | the second area of an image is decoded as Chassis, the third as Board, the fourth as Product |
| FruImageLayout.EntriesInOrder | src/fru_device/fru_utils.cpp:462-627 | so an image reports of a chassis what its second area says, of a board what the third, of a product what the fourth |
| FruImageLayout.UuidGroups | src/fru_device/fru_utils.cpp:354-380 | the printed UUID: three groups of bytes in reverse, two as they stand |
| FruImageLayout.UuidWalk | src/fru_device/fru_utils.cpp:341-388 | a record is the UUID's if it is of type 3 and kind 7; otherwise the search goes on behind it unless it is marked as the last |
| FruReader.FRUReader.Read | src/fru_device/fru_reader.cpp:8-78 | over any read function: ends, returns at most the length asked for, cached blocks stay, a known end only moves forward, no delivered block is fetched again, an offset reads the same byte every time; on a fixed device it returns exactly the device's bytes |
| FruReader.FRUReader.FetchBlock | src/fru_device/fru_reader.cpp:24-46 | a miss stores what is delivered, records the end on a short answer, and leaves no empty block behind |
| FruReader.FRUReader.NextChunk | src/fru_device/fru_reader.cpp:21-74 | the bytes copied in one turn are those of the cached block, and none past the known end |
| FruReader.StoreBlock | src/fru_device/fru_reader.cpp:26-35 | a new block, even one that is short in front of a known end, keeps blocks before the end complete and the end's own block cached |
| FruReadBack.FindFRUHeader | src/fru_device/fru_utils.cpp:781-849 | on a fixed device, the header at 0, or where the TYAN or GIGABYTE mark sends the search, and in the latter case where the board's XML is |
| FruReadBack.ReadFRUContents | src/fru_device/fru_utils.cpp:851-1036 | on a fixed device: nothing without a header, an empty result for areas out of order, else an image that equals the device as far as that goes and is as long as areas and records say (if the device holds the bytes that say it), with a Gigabyte board's MAC address edited into it, followed by the rest of the storage when its size is given |
| FruReadBack.LaunderMac | src/fru_device/fru_utils.cpp:983-997 | the image of a Gigabyte board whose XML holds a MAC address is the image with BOARD_INFO_AM2 edited, when that edit is possible; any other image is left as it was |
| FruReadBack.StoredParts | src/fru_device/fru_utils.cpp:999-1033 | with the storage size: nothing if the image does not fit or the device is shorter, else the image and the device's bytes behind it |
| FruReadBack.MeasureRecords | src/fru_device/fru_utils.cpp:917-953 | the multi-record walk ends, at the end of the record list |
| FruReadBack.RecordWalk | src/fru_device/fru_utils.cpp:927-952 | a record of five header bytes and its data ends the list if it is marked as the last one; otherwise the list goes on behind it, up to 64 KiB |
| FruReadBack.AssembledExtent | src/fru_device/fru_utils.cpp:851-1036 | for a device starting with any assembled image, the header is found at 0 and the extent is where the last area or record list ends, or where Internal does by its second byte |
| FruReadBack.ReadBack | src/fru_device/fru_utils.cpp:851-1036 | reading such a device, when what is read ends with the image (`EndsWithImage`), gives exactly the image, and with the storage size exactly the device |
| FruReadBack.ReadBackExactly | src/fru_device/fru_utils.cpp:851-1036 | the image comes back if and only if its record list, or its last area without one, ends with it and Internal, by its second byte, does not end behind it |
| FruReadBack.InternalFits | src/fru_device/fru_utils.cpp:902-915 | without MultiRecord that is exactly: Internal, by its second byte, does not end behind the image |
| FruGigabyte.VendorPlaces | src/fru_device/fru_utils.cpp:809-845 | a device that starts with TYAN's letters has its header at 0x6000 if anywhere, one that starts with GIGABYTE at 0x4000 |
| FruGigabyte.XmlPlace | src/fru_device/fru_utils.cpp:748-762 | the XML is looked for in 32768 bytes from 512 on |
| FruGigabyte.MacIsReported | src/fru_device/fru_utils.cpp:983-997 | a board that can take the MAC address reports it under BOARD_INFO_AM2 with its mark, and by itself under MAC_BOARD_INFO_AM2 |
| ProbeLexer.FindBalancedEnd | src/entity_manager/probe_lexer.cpp:52-97 | the end of the balanced text, None when it runs out |
| ProbeLexer.GroupEnd | src/entity_manager/probe_lexer.cpp:52-97 | the balanced end of a group of the grammar (nested groups, quotes, escapes) is the end of the group |
| ProbeLexer.BalancedIsGroup | src/entity_manager/probe_lexer.cpp:52-97 | conversely, text up to a balanced end is always such a group |
| ProbeLexer.ExtractFoundName | src/entity_manager/probe_lexer.cpp:101-112 | the argument without the blanks and single quotes at its ends: what is taken off is nothing else, and the rest starts and ends with something else |
| ProbeLexer.LexProbe | src/entity_manager/probe_lexer.cpp:116-174 | the loop computes the tokens of the statement, None on a syntax error |
| ProbeWords.CallIsStatement | src/entity_manager/probe_lexer.cpp:139-162 | a name of letters, digits, underscores and dots with a group of arguments behind it is one D-Bus statement |
| ProbeWords.FoundIsName | src/entity_manager/probe_lexer.cpp:150-155 | FOUND with a group of arguments is the name in it |
| ProbeWords.WordAlone | src/entity_manager/probe_lexer.cpp:164-170 | a word by itself is one of the five keywords, or an error |
| ProbeWords.CallIsClosed | src/entity_manager/probe_lexer.cpp:142-149 | a call lexes only if a whole group of arguments starts at its parenthesis |
| ProbeWords.StrangeCharacter | src/entity_manager/probe_lexer.cpp:129-138 | any character but a blank or one of a name is an error where a token should start |
| ProbeWords.StrangeBehindWord | src/entity_manager/probe_lexer.cpp:129-138 | and so it is right behind a word, but for a parenthesis |
| ProbeWords.DottedExample | src/entity_manager/probe_lexer.cpp:139-162 | a dotted interface name with a quoted property is lexed |
| ProbeLexer.LexedPrinted | src/entity_manager/probe_lexer.cpp:116-174 | printing tokens with any blanks between them and lexing gives the tokens back |
| ProbeLexer.LexedConcat | src/entity_manager/probe_lexer.cpp:116-174 | behind a statement that lexes, a blank and any other text adds that text's tokens, and fails exactly if that text does not lex |
| ProbeLexer.JoinedLexes | src/entity_manager/perform_scan.cpp:693-740 | an array of statements that each lex can be joined with blanks: the tokens are those of the statements in order |
| ProbeLexer.JoiningRepairs | src/entity_manager/perform_scan.cpp:693-740 | statements that do not lex alone may lex joined, when a quote spans them |
| ProbeLexer.ParseProbeCommand | src/entity_manager/perform_scan.cpp:693-740 | tokens of the joined statements; none if a statement is not a string or the text does not lex |
| Probe.ProbeDbus | src/entity_manager/perform_probe.cpp:19-64 | adds exactly the devices that are an object seen through the interface and have every wanted property with a value that matches, in the order of the objects |
| ProbeSelection.NothingWanted | src/entity_manager/perform_probe.cpp:28-62 | with nothing wanted, the objects with the interface are found |
| ProbeSelection.WantedNarrows | src/entity_manager/perform_probe.cpp:41-54 | one more wanted property keeps exactly those found devices that have it with a value that matches |
| ProbeSelection.LackingIsNotFound | src/entity_manager/perform_probe.cpp:48-53 | an object without a wanted property is not found |
| ProbeSelection.StatementVerdict | src/entity_manager/perform_probe.cpp:117-143 | a probe that is one statement passes exactly if some object matches, and is applied to exactly those; arguments that do not parse make it fail |
| ProbeSelection.MatchOneKeepsLast | src/entity_manager/perform_probe.cpp:170-178 | with MATCH_ONE behind the statement only the last matching object is kept |
| ProbeSelection.NoStatementNoDevice | src/entity_manager/perform_probe.cpp:86-116 | TRUE passes, FALSE fails, FOUND passes exactly if the name is passed; without a statement a probe is applied once, to an empty device |
| Probe.DoProbe | src/entity_manager/perform_probe.cpp:68-181 | verdict and devices of a probe; a passing probe has at least one device, and exactly one under MATCH_ONE |
| Probe.VerdictIsMeaning | src/entity_manager/perform_probe.cpp:68-181 | for every expression of the grammar the running evaluation is its left-to-right meaning, false if a D-Bus statement is malformed |
| Probe.VerdictMonotone | src/entity_manager/perform_probe.cpp:68-181 | more passed probes never turn a verdict false |
| MatchOnePlacement.LeadingMatchOne | src/entity_manager/perform_probe.cpp:92-98 | MATCH_ONE in front of any expression gives the verdict of the expression with FALSE for its leftmost operand |
| MatchOnePlacement.OperandIgnored | src/entity_manager/perform_probe.cpp:147-162 | MATCH_ONE behind AND or OR makes the evaluation ignore that connective and its operand, whatever follows |
| MatchOnePlacement.MatchOneKeepsVerdict | src/entity_manager/perform_probe.cpp:68-181 | at any place of any grammatical token list, inserting MATCH_ONE keeps the verdict if and only if a D-Bus statement is malformed, or it stands behind an operand, or the operand it makes the evaluation skip makes no difference, or what follows decides by itself |
| MatchOnePlacement.ExprIsGrammatical | src/entity_manager/perform_probe.cpp:68-181 | the token lists of all expressions are grammatical |
| MatchOnePlacement.MisplacedExamples | src/entity_manager/perform_probe.cpp:92-98 | both failures on concrete probes, and a leading MATCH_ONE that leaves the probe true |
| Scan.PerformScan.ProcessConfigurations | src/entity_manager/perform_scan.cpp:822-868 | the configurations kept, the probes deferred, and the names and progress left are exactly those of the walk `PassOver`; it stops only at a configuration that does not parse |
| Scan.PassDropsExactly | src/entity_manager/perform_scan.cpp:822-868 | what the walk drops is malformed or known by then, and what it keeps was neither when it started |
| Scan.PerformScan.PerformProbe | src/entity_manager/perform_probe.cpp:194-201 | a probe at the end of its life is applied if and only if it passes |
| Scan.PerformScan.UpdateSystemConfiguration | src/entity_manager/perform_scan.cpp:668-691 | the configuration's name and its new devices' names are passed at once; restored names enter the configuration and are passed by the next pass |
| Scan.PerformScan.Run | src/entity_manager/perform_scan.cpp:870-890 | a pass starts from the applied names; if nothing passed, no surviving configuration passes |
| Scan.PerformScan.RunToEnd | src/entity_manager/perform_scan.cpp:893-908 | the chain ends, since every pass that passed something lowers the number of unpassed names; it calls back once, leaves what `Finished` says, and, when no probe asks for the bus, exactly what the function `Chain` gives |
| Scan.UnpassedDrops | src/entity_manager/perform_scan.cpp:893-908 | the measure: passing a new name strictly lowers the number of names not passed |
| Scan.LeastFixedPoint | src/entity_manager/perform_scan.cpp:822-908 | when a configuration that adds another one's name adds all that the other one would, the passed names are the least set that holds the seed and is closed under passing configurations |
| Scan.ChainFinished | src/entity_manager/perform_scan.cpp:822-908 | the chain as a function leaves what every chain leaves |
| Scan.OrderDoesNotMatter | src/entity_manager/perform_scan.cpp:822-908 | so two chains over the same configurations in any order, evaluated in any order, pass the same names |
| ScanOrder.OrderExactly | src/entity_manager/perform_scan.cpp:822-908 | all orders of the configurations leave the same names, whatever their probes, if and only if that premise holds |
| ScanOrder.ClosedExactly | src/entity_manager/perform_scan.cpp:822-908 | whatever the probes and the order, the chain ends in a closed set if and only if that premise holds |
| ScanOrder.OrderMatters | src/entity_manager/perform_scan.cpp:634-636 | when one always passing configuration takes another one's name but not all it adds, the chains over the two orders leave different names |
| ScanOrder.OrderMattersExample | src/entity_manager/perform_scan.cpp:634-636 | such a pair |
| SystemConfiguration.Inventory.RecordDiscoveredIdentifiers | src/entity_manager/perform_scan.cpp:249-283 | the number in the restored name, and only that, leaves the list |
| SystemConfiguration.Inventory.RestorePersistedConfigurations | src/entity_manager/perform_scan.cpp:486-518 | known devices get their records back and are no longer missing; the free numbers are exactly those of 1..n no restored device has, and never fewer than the devices left |
| SystemConfiguration.RestoredRecords | src/entity_manager/perform_scan.cpp:486-518 | a found device keeps the record in the configuration, or else gets the last boot's, with the null entries of Exposes taken out |
| SystemConfiguration.PruneFirst | src/entity_manager/perform_scan.cpp:486-518 | only null entries are taken out, and the others keep their order |
| SystemConfiguration.Inventory.UpdateSystemConfigurationForDevice | src/entity_manager/perform_scan.cpp:595-666 | a new device takes the first free number, its record and passed name follow, and it is not missing if it exposes anything |
| SystemConfiguration.Inventory.UpdateSystemConfiguration | src/entity_manager/perform_scan.cpp:668-691 | new devices get distinct numbers, in order, the lowest of 1..n that no restored device has; the names and records that follow from them |
| SystemConfiguration.NewNamesAreFresh | src/entity_manager/perform_scan.cpp:668-691 | if the template's number can be read back, new names differ from one another and from every restored one |
| SystemConfiguration.NumberReadBack | src/entity_manager/perform_scan.cpp:263-270 | for a template of fixed text, number, fixed text, the number can be read back from the finished name if and only if the whole text does not read as a number |
| SystemConfiguration.BareNumberIsNoName | src/entity_manager/utils.cpp:398-407 | a template that is nothing but the number gives the empty name |
| SystemConfiguration.NumbersRead | src/entity_manager/perform_scan.cpp:263-270 | the numbers that are read back are those an int holds: up to 2147483647 |
| SystemConfiguration.NegativesRead | src/entity_manager/perform_scan.cpp:263-270 | and down to -2147483648 |
| SystemConfiguration.NoNumber | src/entity_manager/perform_scan.cpp:263-270 | text that starts with neither a digit nor a minus and a digit holds no number there |
| SystemConfiguration.NumbersTaken | src/entity_manager/utils.cpp:306-338 | a numeral is taken for a number, and lost, exactly up to 2^64 - 1 |
| SystemConfiguration.HexTaken | src/entity_manager/utils.cpp:306-338 | so is text behind 0x, exactly if it is hexadecimal digits with a value up to 2^64 - 1 |
| SystemConfiguration.EveryDeviceHasARecord | src/entity_manager/perform_scan.cpp:486-691 | afterwards every found device has a record, and known records are as they were |
| SystemConfiguration.NamesAreFixed | src/entity_manager/perform_scan.cpp:486-691 | the names a probe's devices get depend only on the records of those devices: records of other configurations make no difference |
| SystemConfiguration.NamesDuringChain | src/entity_manager/perform_scan.cpp:668-691 | in any run of passing probes with record keys apart, each one's devices get the names they would have got had it come first |
| Rescan.Reachable | src/entity_manager/entity_manager.cpp:560-738 | the invariant holds in every state reachable by any inputs |
| Rescan.WakeUpStep | src/entity_manager/entity_manager.cpp:719-738 | a wake-up before shutdown takes the timer, and what it was waiting for completes as cancelled |
| Rescan.DebounceStep | src/entity_manager/entity_manager.cpp:654-684 | a wait that runs out starts a scan, or counts as a wake-up while one is in progress; any other end does nothing |
| Rescan.CheckStep | src/entity_manager/entity_manager.cpp:577-595 | a removal check that was not cancelled counts for the power state it finds |
| Rescan.NoLostRescan | src/entity_manager/entity_manager.cpp:654-738 | before shutdown, a wake-up later than the latest scan's start has its own wait armed, or that wait's completion queued, if and only if the wait has not ended with an error |
| Rescan.RescanFollows | src/entity_manager/entity_manager.cpp:654-738 | from any such state with that wait, timer expiry, scan completion and that completion start one more scan, without a further wake-up |
| Rescan.RescanFollowsExactly | src/entity_manager/entity_manager.cpp:654-738 | in any reachable state before shutdown, a wake-up that no scan has answered can still be answered without another one if and only if its wait has not failed or an earlier wait has run out and is still to be handled |
| Rescan.LostExample | src/entity_manager/entity_manager.cpp:658-667 | a wake-up whose wait fails and that no inputs but another wake-up answer |
| Rescan.OlderAnswersExample | src/entity_manager/entity_manager.cpp:654-680 | a wake-up whose wait fails and that the completion of an earlier wait answers |
| Rescan.OneScanAtATime | src/entity_manager/entity_manager.cpp:675-680 | at most one scan is in progress in any reachable state |
| Rescan.RemovalCancelsNoRescan | src/entity_manager/entity_manager.cpp:645-651 | the removal check never takes the timer from a debounce wait |
| Rescan.RemovalArmedWhen | src/entity_manager/entity_manager.cpp:560-577 | in any reachable state the removal check is armed exactly if no wake-up has come since, there are records now and from the last boot, and they are not checked yet, with or without power as it is |
| Rescan.CheckedOnce | src/entity_manager/entity_manager.cpp:578-596 | once a check with power on has ended there is no other in any run |
| Rescan.NothingStartsAfterShutdown | src/entity_manager/entity_manager.cpp:669-673 | once shutdown has begun no run starts a scan or arms a new wait |
| Rescan.NothingPruned | src/entity_manager/perform_scan.cpp:870-877 | no scan of any run prunes a record |
| Rescan.AnnouncedOnce | src/entity_manager/entity_manager.cpp:684-714 | in any log of scans, a record handed on for publication by two of them was pruned by one in between |
| Rescan.AnnouncedAtMostOnce | src/entity_manager/entity_manager.cpp:684-714 | so no run hands a record on for publication twice |
| Rescan.ConfigurationGrows | src/entity_manager/entity_manager.cpp:170-174 | no step of any run takes a record from the configuration, and none but a passing probe adds one: the inserting lookup of the publication never inserts |
| Rescan.SystemIsLive | src/entity_manager/entity_manager.cpp:598-623 | between scans the configuration's keys are exactly those announced and not pruned since |
| Rescan.DeriveNewConfiguration | src/entity_manager/configuration.cpp:121-139 | exactly the records that were not there before |
| Rescan.EntityManager.PropertiesChangedCallback | src/entity_manager/entity_manager.cpp:719-738 | the wake-up step: next count, earlier wait cancelled, wait armed, unless shutting down |
| Rescan.EntityManager.PropertiesChangedCallbackDebounced | src/entity_manager/entity_manager.cpp:654-716 | the debounce step for each way the wait can end: nothing, another wait, or a scan |
| Rescan.EntityManager.CollectConfiguredNames | src/entity_manager/perform_scan.cpp:810-820 | the names of all applied records |
| Rescan.EntityManager.PruneMissingByName | src/entity_manager/perform_scan.cpp:790-808 | the missing records left are exactly those with none of the names |
| Rescan.EntityManager.ScanCallback | src/entity_manager/entity_manager.cpp:690-714 | the completion step: prunes, hands on what is new, clears the flag, posts the publication |
| Rescan.EntityManager.PostToDbus | src/entity_manager/entity_manager.cpp:86-174 | looking the new records up inserts those that are not there |
| Rescan.EntityManager.StartRemovedTimer | src/entity_manager/entity_manager.cpp:560-577 | arms the timer exactly when ready and the power state has not been checked |
| Rescan.EntityManager.AfterPublication | src/entity_manager/entity_manager.cpp:645-651 | posts the new records, then starts the removal check only if no wake-up came since |
| Topology.Topology.AddBoard | src/entity_manager/topology.cpp:59-161 | the index after the call is the one the longer history describes |
| Topology.Topology.Remove | src/entity_manager/topology.cpp:249-269 | the same for removal |
| Topology.Topology.AddProbePath | src/entity_manager/topology.cpp:271-277 | the same for a probe path |
| Topology.Topology.GetAssocs | src/entity_manager/topology.cpp:163-247 | exactly the associations the history describes for the boards asked for, no empty entries, and no port association recorded at both ends |
| TopologyCalls.PlugIn | src/entity_manager/topology.cpp:59-247 | a board with a slot and one that plugs into it, added in either order: exactly the second reports that it is contained by the first and, with a power port, that it powers it, if boards of its type may |
| TopologyCalls.Connect | src/entity_manager/topology.cpp:93-125 | two boards with configured roles on a port: an association is reported exactly for contained_by with containing and for powering with powered_by, by the first of each pair, if its type may |
| TopologyCalls.IncompletePort | src/entity_manager/topology.cpp:93-147 | a port record without a field it needs, or with an unknown role, gives its board no association |
| TopologyCalls.NoPort | src/entity_manager/topology.cpp:59-91 | a record of another type changes nothing that is reported |
| Topology.LiveExplained | src/entity_manager/topology.cpp:149-161 | a board has a role on a port if and only if some call gave it and no later one removed the board |
| Topology.RemoveIsExact | src/entity_manager/topology.cpp:249-269 | removal takes away exactly the port associations of that board and those pointing at it |
| Topology.Distributes | src/entity_manager/topology.cpp:163-186 | results distribute over unions of the boards asked for |
| Topology.ProbingExplained | src/entity_manager/topology.cpp:249-277 | over any history, a probing association is reported if and only if some call gave it and no later one removed a board whose name is that path, whether or not the board itself was removed |
| Topology.ProbingOutlivesBoard | src/entity_manager/topology.cpp:249-277 | adding a board and its probe path and removing the board leaves exactly the probing association reported, unless the name is the path |
| Exposes.FindSlot | src/entity_manager/dbus_interface.cpp:301-323 | finds a duplicate if there is one, else the first null slot or the end |
| Exposes.Entity.AddObjectJson | src/entity_manager/dbus_interface.cpp:280-352 | refuses missing names, a record with the name and type of one that is there, and schema violations, in that order, leaving all as it was; otherwise the record lands in the first null slot or at the end, which is the index its interface is given |
| Exposes.Entity.Delete | src/entity_manager/dbus_interface.cpp:80-87 | empties exactly the record's own slot |
| Exposes.Run | src/entity_manager/dbus_interface.cpp:63-95 | over any run of additions and deletions a record stays in its slot, and records stay distinct in name and type |
| Exposes.PutDistinct | src/entity_manager/dbus_interface.cpp:301-334 | adding a record that is not there keeps name and type pairs distinct |
| GpioPresence.DevicePresence.constructor | src/gpio-presence/device_presence.cpp:25-39 | each pin has the polarity of its last mention |
| GpioPresence.DevicePresence.IsPresent | src/gpio-presence/device_presence.cpp:57-80 | every pin has a cached level, high exactly if the pin is active high |
| GpioPresence.DevicePresence.UpdateGPIOPresence | src/gpio-presence/device_presence.cpp:41-109 | the interface is published exactly while present, if the line is one of the device's |
| GpioPresence.GPIOPresenceManager.AddConfig | src/gpio-presence/gpio_presence_manager.cpp:66-135 | every device with a pin stays published exactly while present; if all lines can be had, every needed pin is watched |
| GpioPresence.GPIOPresenceManager.UpdatePresence | src/gpio-presence/gpio_presence_manager.cpp:242-254 | the same after a level change |
| GpioPresence.GPIOPresenceManager.RemoveConfig | src/gpio-presence/gpio_presence_manager.cpp:204-240 | the same after a removal, and then the watched pins are exactly the needed ones |

## Left out

- FruUpdate.UpdateAddProperty: images in which the size of Internal or MultiRecord, an unsigned difference in the source, wraps around and the wrapped sum is inside the image are excluded by the precondition `Sane`, unless an earlier area is refused first; the source's behaviour is undefined there.
- FruEditDecode.EditThenDecode: images in which MultiRecord is not the last area and results of more than 255 blocks are excluded; offsets and length bytes truncate there.
- FruEdit.SetField: the check that the field found lies inside the buffer is not repeated, since it cannot fail.
- FruFormat.FormatIPMIFRU: dates are minutes, not printed text.
- FruReader.FRUReader.Read: reads end at 2^37 bytes, where the 32-bit block number would wrap around.
- FruReadBack.ReadFRUContents: the bytes handed out for addresses past the end of a device shorter than its headers say are not specified (stale buffer bytes), nor is the length when a length byte lies there, nor the outcome of read errors.
- Probe.DoProbe: a D-Bus statement whose argument is JSON but not an object, for which the source throws, is not distinguished from one that does not parse.
- Scan.PerformScan.RunToEnd: the bus is one snapshot for the whole chain, also for the probes already started in a pass that an unparsable configuration stops, which the source evaluates on what earlier passes fetched.
- Scan.LeastFixedPoint: the names a configuration's devices get are a fixed function of it; SystemConfiguration.NamesDuringChain is the reason, as long as record keys of different configurations, hashes in the source, do not collide.
- Scan.PerformScan.Run: the set of missing configurations is not part of this class but of Rescan; stripping the applied names from it makes no difference to what passes.
- SystemConfiguration.Inventory.RecordDiscoveredIdentifiers: a restored name shorter than the template's text in front of its first variable leaves the numbers alone; the source throws.
- SystemConfiguration.Inventory.UpdateSystemConfigurationForDevice: template replacement and a record's own expose actions are one function of device and number; expose actions on other records, the probe path handed to the topology, and records that are not objects are not modelled.
- Rescan.EntityManager.ScanCallback: records are keys with a name each (the source throws for a record without one); D-Bus objects, files, logs, and what the topology and the interfaces of a pruned record go through are not modelled. No record is ever pruned, see Rescan.NothingPruned.
- Topology.Topology.AddBoard: association names are an enumeration; exposed records hold only the fields the topology reads.
- Exposes.Entity.Delete: an interface is gone once its Delete has been called; a second call before the posted removal runs is not modelled. Interfaces of boot-time records are not modelled.
- GpioPresence.GPIOPresenceManager.RemoveConfig: a watched line without a descriptor, left by a failed request, is excluded by the precondition; the source erases an invalid iterator there.
- GPIO devices without pins: nothing is claimed about when they are published.
- The legacy FRU helpers, name sanitizers, bus scanning, I2C, sysfs overlays, gzip and XML, schema validation, and the CBC tray parser.
