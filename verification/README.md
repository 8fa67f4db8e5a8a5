# Matter server: models and proofs

A Dafny model of the parts of the Matter server repository whose correctness is hard to see
from one body: codecs that have to be inverse to each other, protocols whose steps interleave,
and algorithms that recover a structure from flattened data. `dafny verify dfyconfig.toml`
checks everything.

Each part follows the form of its source. Expressions and recursion are functions; objects and
loops are classes and methods, each proved against functions whose properties are proved as
lemmas beside them. What those functions say about bytes, numbers and events is tied down
without them as well: the wire form in plain numbers, and the state of each protocol by the list
of events alone.

| files | what is modelled |
|---|---|
| `TlvFormat`, `TlvBytes`, `TlvCanonical`, `TlvCodec` | the Matter TLV writer and reader of the Python client (Matter Core Specification, Appendix A): control octet, tags, integer widths, strings, containers, the sorted dictionary, and which of the buffers the reader accepts are encodings |
| `Schema`, `SchemaLaws`, `SchemaWire`, `SchemaCodec`, `SchemaReader` | cluster object descriptors on top of TLV: label dictionaries with nullable, optional, list and nested struct fields |
| `JsonText`, `JsonParse`, `JsonIntegers`, `JsonBigInt`, `JsonReplace`, `JsonLaws`, `JsonRoundTrip`, `JsonExact`, `JsonSplit`, `JsonPlain`, `JsonCodec` | the BigInt-aware JSON printer (placeholders replaced in the text) and parser (a string-aware scanner in front of `JSON.parse`) |
| `WireNaming` | the loop of acronym replacements and its cache |
| `EndpointTree`, `EndpointForest`, `EndpointWalk` | the endpoint tree recovered from transitive PartsLists |
| `LogRotation`, `FileLogger` | the file logger as a state machine over writes, flushes, rotation steps and close |
| `BleConnection`, `BleConnectionHistory`, `BleProxyConnection` | request and response correlation on one BLE proxy socket |
| `BleHub`, `BleHubHistory`, `BleProxyHandler` | peripheral ownership and the aggregate scan of the BLE proxy hub |
| `BleHandles`, `BleHandleHistory`, `BleProxyClient` | connection handles and disconnect reporting of the Python proxy |
| `StableSort`, `Thermostat` | the segments of a thermostat day against the cyclic week |
| `Joined`, `SubscriberKeys`, `MatterClient` | the event subscriber index against a scan of all filters |
| `Tariff` | price ranges and daily rows of a commodity tariff |
| `Wrappers`, `Sequences`, `Numerals` | what several parts share |

Six results differ from what the code's comments or a first reading suggest:

- A TLV buffer the reader accepts need not be one the writer produces. It is one if and only if
  it has the writer's form byte by byte (`TlvCanonical.AcceptedIsEncodingIff`), and writing what
  was read gives the same bytes if and only if structure tags ascend as well
  (`TlvCanonical.ReencodesIff`). A `TLVList` can be written but not read back: the round trip
  holds if and only if none is inside.
- The JSON round trip fails exactly when a string or key is, or ends with a quotation mark and,
  the placeholder of a large integer in the same value, or a string value starts with the marker,
  or `Number` changes an integer: integers below -(2^53-1) get no placeholder. A key that starts
  with the marker does no harm.
- The comment in `wire-naming.ts` that the order of acronyms matters does not hold for its list:
  the result is one simultaneous rewrite of the original name.
- A 16-bit command id that is free again is not enough for a reply to settle its own command:
  `BleConnection.LateReplySettlesAnother` is a run in which a late reply to a timed-out command
  settles another one. `BleConnection.ReplyCorrelation` is the exact condition.
- A hello that arrives after its connection was torn down is accepted: `BleHub.LateHelloHidesOwner`
  is a run in which an address then has an owner nobody can reach, although a connected client
  reported it. `BleHub.RegisteredExactly` says which events let such a connection in.
- An event whose attribute path is the wildcard text `*` calls every selected subscriber twice;
  with any other path the subscriber index is exact.

Environment assumptions: the Python proxy handles one command at a time; times and lists are
those the decoders let through.

## Model

| member | source | states |
|---|---|---|
| TlvFormat.LittleEndianRoundTrip | python_client/chip/tlv/__init__.py:243-257 | a number packed into a width that holds it is unpacked to itself |
| TlvFormat.ScalarReadsBack | python_client/chip/tlv/__init__.py:122-190 | every scalar element, followed by any bytes, is read back as the same scalar and exactly its payload is consumed; the widths chosen for 64-bit integers and for lengths are the ones the control octet announces |
| TlvFormat.HeadReadsBack | python_client/chip/tlv/__init__.py:271-286 | the control octet and tag the writer emits are decoded to the same type and tag |
| TlvFormat.ParseElement | python_client/chip/tlv/__init__.py:361-376 | on arbitrary bytes every element that is read moves the cursor by at least one byte, so the reader ends |
| TlvFormat.PrintThenParse | python_client/chip/tlv/__init__.py:271-376 | self-delimitation: for every nested element, followed by anything, the reader yields its meaning and stops right behind it, if and only if it contains no list container (type 0x17) |
| TlvFormat.PrintIsPrefixFree | python_client/chip/tlv/__init__.py:81-257 | no encoding is a proper prefix of another, and equal encodings mean the same |
| TlvFormat.SortedTags | python_client/chip/tlv/__init__.py:100-107 | the order in which a dictionary's entries are written: all tags once, ascending by sort key |
| TlvFormat.WireKeepsMeaning | python_client/chip/tlv/__init__.py:81-120 | sorting a dictionary and writing its members in order keeps the value |
| TlvFormat.ValueRoundTrip | python_client/chip/tlv/__init__.py:81-257 | reading what `put` writes gives back the value and stops at its end, whatever follows, if and only if no `TLVList` is inside |
| TlvBytes.PrintIsBytes | python_client/chip/tlv/__init__.py:18-257 | the wire form in plain numbers: exactly 64-bit integers and lengths and tags from 0 to 255 where they belong can be written, with type codes 0x00 to 0x17, bit 5 and the tag for a tagged element, the least width low byte first, two's complement, members in order and 0x18 behind a container |
| TlvBytes.EntriesAscend | python_client/chip/tlv/__init__.py:100-107 | the anonymous entry of a dictionary is written first and the others by ascending number |
| TlvBytes.TagPlaces | python_client/chip/tlv/__init__.py:220-240 | which tags are accepted at the top, in a structure, in an array and in a list |
| TlvBytes.CodeIsRead | python_client/chip/tlv/__init__.py:288-359 | for each type code other than the two containers, with any bytes behind it, the value in plain numbers, how far the cursor moves, or which error |
| TlvBytes.TagIsRead | python_client/chip/tlv/__init__.py:271-286 | a first byte with upper bits 001 takes the next byte as its tag, and every other one reads as if it had no tag |
| TlvBytes.SmallDictionaries | python_client/chip/tlv/__init__.py:361-376 | `15 18` is the empty dictionary whatever follows, and an entry replaces an earlier one of the same tag |
| TlvCanonical.AcceptedIsEncodingIff | python_client/chip/tlv/__init__.py:81-376 | the converse of the round trip: for every buffer whose first element the reader accepts, the bytes it consumed are an encoding if and only if the tag control is 0 or 1, every integer and length has its least width, strings and payloads end inside the buffer, every container reaches its own end marker, and members are tagged in structures and untagged in arrays |
| TlvCanonical.ReencodesIff | python_client/chip/tlv/__init__.py:81-376 | with structure tags strictly ascending as well, and only then, `put` of the value that was read gives back the bytes consumed; no other value is written as those bytes |
| TlvCanonical.StrictIsAccepted | python_client/chip/tlv/__init__.py:260-376 | every buffer of the writer's form is accepted, and the reader stops where the form ends |
| TlvCanonical.AcceptedIsNotCanonical | python_client/chip/tlv/__init__.py:271-376 | one accepted buffer for each way of missing the form: no end marker, a string past the end, a wide number, a reserved tag control, an untagged structure member, a tagged array member |
| TlvCanonical.AcceptedOutOfOrder | python_client/chip/tlv/__init__.py:361-376 | a structure whose tags repeat or descend is accepted and has the form, and still is not what `put` writes for the value read |
| TlvCodec.TlvWriter.EncodeControlAndTag | python_client/chip/tlv/__init__.py:211-241 | which tags are refused in which container, and the head bytes otherwise |
| TlvCodec.TlvWriter.PutSignedInt | python_client/chip/tlv/__init__.py:122-138 | one signed integer element is appended when it fits 64 bits and the tag is allowed here; otherwise ValueError and an unchanged buffer |
| TlvCodec.TlvWriter.PutUnsignedInt | python_client/chip/tlv/__init__.py:140-146 | likewise for unsigned integers, negative ones refused |
| TlvCodec.TlvWriter.PutString | python_client/chip/tlv/__init__.py:164-172 | one string element is appended, or nothing and ValueError |
| TlvCodec.TlvWriter.PutBytes | python_client/chip/tlv/__init__.py:174-181 | one byte string element is appended, or nothing and ValueError |
| TlvCodec.TlvWriter.StartContainer | python_client/chip/tlv/__init__.py:192-204 | the head of a container is appended and the container stack pushed, exactly where the tag is allowed; otherwise ValueError, and buffer and stack stay as they were |
| TlvCodec.TlvWriter.EndContainer | python_client/chip/tlv/__init__.py:206-209 | the end marker, which `TlvBytes.PrintIsBytes` gives as 0x18, is appended and the stack popped |
| TlvCodec.TlvWriter.Put | python_client/chip/tlv/__init__.py:81-120 | `put` succeeds exactly on printable values with allowed tags, appends the printed element of the value, and restores the container stack |
| TlvCodec.TlvReader.DecodeControlAndTag | python_client/chip/tlv/__init__.py:271-286 | type and tag of the next element, a short buffer being an error |
| TlvCodec.TlvReader.DecodeVal | python_client/chip/tlv/__init__.py:288-359 | the value of every element type on every buffer, the error otherwise, and where the cursor stops |
| TlvCodec.TlvReader.GetItems | python_client/chip/tlv/__init__.py:361-376 | the mutually recursive loop ends on every buffer and collects what the parser specification says |
| TlvCodec.TlvReader.Get | python_client/chip/tlv/__init__.py:266-269 | the top-level dictionary, anonymous elements under the key `Any` |
| Schema.GetFieldByTag | python_client/chip/clusters/ClusterObjects.py:97-101 | the field with a tag is found, and none only when there is none |
| SchemaLaws.StructMeansValue | python_client/chip/clusters/ClusterObjects.py:168-177 | the members written for a dictionary mean, as a TLV structure, exactly the values of its present fields under their tags |
| SchemaLaws.StructViewed | python_client/chip/clusters/ClusterObjects.py:126-162 | converting that structure under any older descriptor never fails and yields the expected view |
| SchemaLaws.TopLevelElement | python_client/chip/clusters/ClusterObjects.py:164-166 | a buffer of one anonymous element is read as a dictionary with just that entry |
| SchemaLaws.ConformingIsEncoded | python_client/chip/clusters/ClusterObjects.py:40-182 | a dictionary can be encoded if and only if it conforms: every field left out or None only where optional, null only where nullable, lists exactly at list fields, values of the field's type that fit 64 bits, tags of present fields from 0 to 255, at every depth |
| SchemaLaws.SchemaRoundTrip | python_client/chip/clusters/ClusterObjects.py:61-182 | for every descriptor with distinct labels and context tags and every conforming dictionary, decoding the encoding returns the dictionary with exactly its None entries and unknown keys dropped at every depth, nulls kept and lists in order |
| SchemaLaws.SchemaEvolution | python_client/chip/clusters/ClusterObjects.py:126-182 | every conforming dictionary is encoded, and decoded by every older descriptor, one that lacks fields or whose enums have other members at any depth, to the stated view |
| SchemaLaws.EvolutionKeepsKnownFields | python_client/chip/clusters/ClusterObjects.py:126-182 | that view: a shared field has the value the writer's own descriptor would give, an unknown field appears raw under its tag |
| SchemaLaws.UnknownEnumMember | python_client/chip/clusters/ClusterObjects.py:111-115 | an enum member that the reader's descriptor lacks arrives as its unknown value, any other one as itself |
| SchemaWire.EncodingCarries | python_client/chip/clusters/ClusterObjects.py:40-182 | the bytes of a conforming dictionary are one TLV structure with exactly its fields under their tags, at every depth: scalars as they are, enum members as unsigned integers, null as null, lists as arrays in order |
| SchemaWire.UnknownFieldIsCarried | python_client/chip/clusters/ClusterObjects.py:126-136 | a reader that does not know a field finds just that, raw, under its tag |
| SchemaWire.OneEnumField | python_client/chip/clusters/ClusterObjects.py:40-59 | the enum member n up to 255 in a field with tag 0 alone is the five bytes `15 24 00 n 18` |
| SchemaWire.FieldErrors | python_client/chip/clusters/ClusterObjects.py:40-90 | which error a value raises that does not suit its field: TypeError for a single value at a list field, ValueError otherwise |
| SchemaWire.FirstFieldFails | python_client/chip/clusters/ClusterObjects.py:168-177 | and a dictionary raises the error of the first field that fails, in the order of the descriptor |
| SchemaWire.ScalarsTaken | python_client/chip/clusters/ClusterObjects.py:111-119 | which scalars a field of each type takes when it is read |
| SchemaWire.MembersFound | python_client/chip/clusters/ClusterObjects.py:111-115 | an enum member is found by its number, of whatever integer type, and by nothing else |
| SchemaWire.ShapesTaken | python_client/chip/clusters/ClusterObjects.py:111-162 | null is null for every field, a number is no list and no structure, a container no scalar |
| SchemaWire.EmptyBuffer | python_client/chip/clusters/ClusterObjects.py:164-166 | an empty buffer gives an empty dictionary |
| SchemaWire.NoDictionary | python_client/chip/clusters/ClusterObjects.py:164-166 | a top-level scalar or array raises AttributeError |
| SchemaCodec.PutSingleElement | python_client/chip/clusters/ClusterObjects.py:40-59 | one element is appended when the value fits the type and the tag is allowed here, and otherwise the first error on the way is raised |
| SchemaCodec.PutField | python_client/chip/clusters/ClusterObjects.py:61-90 | null, None, single and list values append the elements of the field, or raise ValueError where it is not nullable, not optional or mistyped, and TypeError for a single value at a list field |
| SchemaCodec.DictToTlvWithWriter | python_client/chip/clusters/ClusterObjects.py:168-177 | the loop over the fields appends the one structure the dictionary stands for and restores the container stack, or raises the first error in field order |
| SchemaCodec.EncodeDict | python_client/chip/clusters/ClusterObjects.py:179-182 | the encoded bytes exactly for conforming dictionaries, and the first error otherwise |
| SchemaReader.ConvertNonArrayValue | python_client/chip/clusters/ClusterObjects.py:111-124 | scalar type checks, enum lookup and nested structs as specified |
| SchemaReader.TagDictToLabelDict | python_client/chip/clusters/ClusterObjects.py:126-162 | the loop over the entries, in any order, yields the known fields by label and the unknown ones by tag |
| SchemaReader.DecodeDict | python_client/chip/clusters/ClusterObjects.py:164-166 | reader and conversion together agree with the specification on every buffer |
| JsonText.ShortLiteralsAreSafe | packages/ws-client/src/json-utils.ts:134-143 | the cut-off at 15 digits never skips an unsafe integer |
| JsonPlain.Constants | packages/ws-client/src/json-utils.ts:13-31 | the safe range in plain numbers, and the marker letter by letter |
| JsonPlain.PlaceholderInDigits | packages/ws-client/src/json-utils.ts:24-30 | a placeholder is `0x` and the integer in lower-case hexadecimal without leading zeros |
| JsonPlain.EscapesWritten | packages/ws-client/src/json-utils.ts:24-41 | what the printer makes of every character of a string |
| JsonPlain.HexDigitsRead | packages/ws-client/src/json-utils.ts:151-159 | hexadecimal digits of both cases are read |
| JsonPlain.CodeRead | packages/ws-client/src/json-utils.ts:151-159 | what the four digits of an escaped code unit stand for |
| JsonPlain.LettersRead | packages/ws-client/src/json-utils.ts:151-159 | what the other escapes stand for, and which characters and escapes are refused |
| JsonText.PassIsExact | packages/ws-client/src/json-utils.ts:66-149 | on every text that splits into JSON tokens the scanner copies everything and rewrites exactly the integer literals outside the safe range |
| JsonSplit.PassIsExactOnJson | packages/ws-client/src/json-utils.ts:66-149 | every text of the JSON grammar, whatever its strings escape, is such a text, so the scanner is exact on all well-formed JSON |
| JsonSplit.ParsedIsWellFormed | packages/ws-client/src/json-utils.ts:151-159 | and every text that the modelled parser accepts is one of the JSON grammar |
| JsonRoundTrip.LexIsExact | packages/ws-client/src/json-utils.ts:151-159 | splitting a printed text into tokens gives those tokens back |
| JsonParse.PrintedIsParsed | packages/ws-client/src/json-utils.ts:151-159 | the JSON grammar reads every printed value back, whatever follows |
| JsonParse.ParsedIsPrinted | packages/ws-client/src/json-utils.ts:151-159 | and reads nothing else |
| JsonReplace.PiecesReplaced | packages/ws-client/src/json-utils.ts:42-46 | one `replaceAll` of a quoted placeholder acts on each printed token separately, and what it makes of each |
| JsonLaws.OutputWithoutClash | packages/ws-client/src/json-utils.ts:22-49 | without a clash the printed text is the JSON text of the value with every integer in plain digits |
| JsonRoundTrip.FrontPasses | packages/ws-client/src/json-utils.ts:58-159 | a printed front of a text goes through scanner and lexer on its own, whatever stands behind it |
| JsonExact.TreeRevived | packages/ws-client/src/json-utils.ts:154-159 | what the reviver makes of the parsed text is the value that was printed if and only if no string value starts with the marker and `Number` changed no integer; every integer outside the safe range comes back with the digits it was written with |
| JsonExact.PlaceholderTaken | packages/ws-client/src/json-utils.ts:42-46 | when the first clashing string or key is a placeholder in use, whatever is received has the number in its place, or the marked number where it is a key |
| JsonExact.BrokenStringIsFatal | packages/ws-client/src/json-utils.ts:42-46 | when the first clashing string or key ends with a quotation mark and a placeholder in use, the text does not parse |
| JsonExact.JsonRoundTripIff | packages/ws-client/src/json-utils.ts:22-160 | for every value, fractions and integers of any size included: what is printed is parsed to the same value if and only if there is no clash, no marked string value, and no integer that `Number` changes |
| JsonCodec.ToBigIntAwareJson | packages/ws-client/src/json-utils.ts:22-49 | the printer with its list of replacements produces the specified text, whatever `Number` makes of the integers it is given |
| JsonCodec.ScanNumber | packages/ws-client/src/json-utils.ts:103-130 | the digit, fraction and exponent loops find the end of the number and whether it is an integer literal |
| JsonCodec.MarkLargeIntegers | packages/ws-client/src/json-utils.ts:62-151 | the loop with its `inString` flag and its popping of the minus sign produces the specified text on every input |
| JsonCodec.SendAndReceive | packages/ws-client/src/json-utils.ts:22-160 | the two methods one after the other return the value sent exactly under the condition of JsonRoundTripIff |
| WireNaming.ReplaceIsRewrite | packages/ws-client/src/wire-naming.ts:164-166 | one global replacement upper-cases every title-case occurrence at a word boundary |
| WireNaming.WhatMatches | packages/ws-client/src/wire-naming.ts:164-165 | what the regular expression accepts, letter by letter: the first letter, the others in lower case, and behind them the end, a capital, no letter, or an s before one of these |
| WireNaming.PluralIsKept | packages/ws-client/src/wire-naming.ts:165 | the plural of an acronym keeps its small s |
| WireNaming.MatchIsOld | packages/ws-client/src/wire-naming.ts:163-167 | earlier replacements create no new occurrences and leave none of their own |
| WireNaming.ReplacementsAreSimultaneous | packages/ws-client/src/wire-naming.ts:163-167 | the loop equals one simultaneous rewrite of the original name, for every compatible list |
| WireNaming.OrderDoesNotMatter | packages/ws-client/src/wire-naming.ts:11-78 | any two lists with the same acronyms give the same name |
| WireNaming.RewriteIsIdempotent | packages/ws-client/src/wire-naming.ts:159-170 | a rewritten name is left alone |
| WireNaming.OnlyCaseChanges | packages/ws-client/src/wire-naming.ts:159-170 | length and letters stay, only their case changes |
| WireNaming.SourceListIsCompatible | packages/ws-client/src/wire-naming.ts:21-78 | the list in the source is compatible, so all of the above holds for it |
| WireNaming.ChipNames.ToChipName | packages/ws-client/src/wire-naming.ts:156-170 | a cached answer equals a fresh one, and both equal the simultaneous rewrite |
| EndpointTree.DirectChildren | packages/dashboard/src/util/endpoints.ts:44-47 | the direct children: ascending, and exactly the parts no other part lists |
| EndpointTree.AnyInputTreeOrder | packages/dashboard/src/util/endpoints.ts:41-66 | for arbitrary, even cyclic, PartsLists: every endpoint comes exactly once, and every entry below the top is a direct child of the nearest preceding entry one level up |
| EndpointForest.ChildrenAreKids | packages/dashboard/src/util/endpoints.ts:44-49 | when PartsLists hold the proper descendants of a forest, the filter keeps exactly the children |
| EndpointForest.RootsHaveNoParent | packages/dashboard/src/util/endpoints.ts:49-52 | then exactly the roots of the forest have no parent |
| EndpointForest.ForestIsReconstructed | packages/dashboard/src/util/endpoints.ts:30-67 | then the result is the preorder of that forest with true depths, roots and siblings ascending, in whatever order ids and lists come |
| EndpointWalk.Visitor.VisitFrom | packages/dashboard/src/util/endpoints.ts:55-60 | the recursive visit with its shared `visited` and `ordered` terminates and does what the specification of the walk says |
| EndpointWalk.CollectChildren | packages/dashboard/src/util/endpoints.ts:41-50 | the loop that fills the children map and the set of those with a parent |
| EndpointWalk.GetEndpointTree | packages/dashboard/src/util/endpoints.ts:30-67 | the whole function on every input |
| LogRotation.ShiftKeepsLines | packages/matter-server/src/file-logger.ts:36-54 | shifting gives up the oldest backup and nothing else, even with gaps among the backups |
| LogRotation.StepConserves | packages/matter-server/src/file-logger.ts:109-228 | each single event: lines held before plus lines accepted are lines given up plus lines held after, in order |
| LogRotation.LineIsTaken | packages/matter-server/src/file-logger.ts:219-228 | a line becomes the newest one held until a close ends the writer, at every point of a rotation too; after that it is dropped and nothing changes |
| LogRotation.AcceptedUntilClose | packages/matter-server/src/file-logger.ts:86-228 | in every run without a close the accepted lines are exactly the lines written |
| LogRotation.CloseEndsWriter | packages/matter-server/src/file-logger.ts:209-217 | a close ends the writer at once, or not before a rotation that is under way has ended |
| LogRotation.CloseCanFinish | packages/matter-server/src/file-logger.ts:109-217 | from every valid state, in the middle of a rotation too, draining and opening alone bring a close to its end |
| LogRotation.RotationMovesFiles | packages/matter-server/src/file-logger.ts:109-194 | a rotation, with lines written while either stream drains: what the log file and its stream held is the newest backup, the six newest backups are one place older, and the lines written meanwhile are the new log file and its stream |
| LogRotation.FailedRotationChangesNothing | packages/matter-server/src/file-logger.ts:113-122 | a rotation whose temp file does not open leaves everything as if it had not begun |
| LogRotation.LinesAreConserved | packages/matter-server/src/file-logger.ts:86-228 | over every interleaving of writes, flushes, rotations and a close: what was there and every line written before the close ended the writer, in order, is what was dropped with whole oldest backups followed by the seven backups, oldest first, and the log file |
| LogRotation.NothingIsLostMeanwhile | packages/matter-server/src/file-logger.ts:109-228 | at every point of every run an accepted line is held somewhere or went with an oldest backup |
| LogRotation.NothingDroppedBeforeFull | packages/matter-server/src/file-logger.ts:36-54 | nothing is dropped before rotations have used up all the backup slots |
| FileLogger.Logger.ShiftBackupsSync | packages/matter-server/src/file-logger.ts:36-54 | the unlink and the downward loop of renames shift the files on disk, missing ones included |
| FileLogger.Logger.WriteLine | packages/matter-server/src/file-logger.ts:220-228 | a line goes to the pending list, to the stream, or nowhere |
| FileLogger.Logger.OnOldDrained | packages/matter-server/src/file-logger.ts:130-155 | the synchronous part of a rotation between its two drains |
| FileLogger.Logger.OnFinalOpened | packages/matter-server/src/file-logger.ts:171-194 | the pending lines are written in order to the new stream |
| FileLogger.Logger.Close | packages/matter-server/src/file-logger.ts:210-217 | close ends the writer at once, or waits for a rotation |
| BleConnection.StepKeepsInv | packages/ble-proxy/src/BleProxyConnection.ts:124-281 | what every step keeps: ids agree with serials, filed commands are unsettled and the latest under their id, nothing is settled twice, replies travel in order |
| BleConnection.ReplyCorrelation | packages/ble-proxy/src/BleProxyConnection.ts:229-242 | in every reachable state a reply settles the command it answers or nothing, if and only if no later command is pending under the same id |
| BleConnection.TimelyReplyIsCorrelated | packages/ble-proxy/src/BleProxyConnection.ts:124-153 | that is so while fewer than 65536 commands follow; a command that is unsettled and still filed is settled by its reply |
| BleConnection.LateReplySettlesAnother | packages/ble-proxy/src/BleProxyConnection.ts:124-153 | a run within the window of ids whose late reply settles a command it does not answer |
| BleConnection.SettledAtMostOnce | packages/ble-proxy/src/BleProxyConnection.ts:143-153 | over every run, ids clashing or not, each command is settled at most once across reply, send error, timeout and teardown, and teardown leaves nothing pending |
| BleConnection.TeardownSettlesAll | packages/ble-proxy/src/BleProxyConnection.ts:262-281 | within the window of ids teardown leaves every command settled exactly once |
| BleConnectionHistory.ConnectionFollowsHistory | packages/ble-proxy/src/BleProxyConnection.ts:77-281 | after every run the connection is what the list of events alone says: open, up and torn down or not, commands sent, handled and answered, and for each command whether it is filed under its id modulo 65536 and whether it is settled |
| BleConnectionHistory.TornDownIsClosed | packages/ble-proxy/src/BleProxyConnection.ts:195-221 | in every run the end of the connection, a refused hello included, leaves it closed and announced, with nothing filed and everything that was filed settled |
| BleProxyConnection.Connection.SendCommand | packages/ble-proxy/src/BleProxyConnection.ts:124-153 | refused when not connected; otherwise filed under the next wrapping id |
| BleProxyConnection.Connection.HandleTextMessage | packages/ble-proxy/src/BleProxyConnection.ts:165-227 | malformed text, hello, wrong first message, response and other messages, and when `closed` and `handshakeCompleted` are emitted |
| BleProxyConnection.Connection.Close | packages/ble-proxy/src/BleProxyConnection.ts:262-281 | every pending command is rejected once, and `closed` is emitted by the first teardown only |
| BleHub.OwnerKept | packages/ble-proxy/src/BleProxyHandler.ts:198-237 | no event displaces an owner that is connected after it |
| BleHub.OwnerKeptOverRun | packages/ble-proxy/src/BleProxyHandler.ts:198-237 | over every run a client that owns an address owns it as long as it stays connected |
| BleHub.ReporterTakesOver | packages/ble-proxy/src/BleProxyHandler.ts:198-213 | a report gives an address without a connected owner to its reporter and changes no other owner |
| BleHub.SeersKeepOrder | packages/ble-proxy/src/BleProxyHandler.ts:198-237 | over every event seers keep their order, and a new one stands behind those that were there |
| BleHub.ClosingHandsOver | packages/ble-proxy/src/BleProxyHandler.ts:215-237 | a closing owner hands each address to the first connected seer; there is one exactly when another connected client ever reported the address, and otherwise it is forgotten |
| BleHub.EveryReportedAddressIsRouted | packages/ble-proxy/src/BleProxyHandler.ts:129-133 | while no registered socket is closing, an address has a connected owner if and only if a connected client reported it and its recorded owner is registered |
| BleHub.LateHelloHidesOwner | packages/ble-proxy/src/BleProxyHandler.ts:198-237 | the second half is needed: a run in which a client that was torn down says hello late, reports, and keeps an address that a connected client reported as well |
| BleHub.StepKeepsInv | packages/ble-proxy/src/BleProxyHandler.ts:98-237 | owners are seers, seers did report, and a connected reporter is a seer, after every event, also those of connections that were torn down |
| BleHub.ReachableStatesAreSound | packages/ble-proxy/src/BleProxyHandler.ts:98-237 | so it is in every reachable hub state |
| BleHub.RegisteredExactly | packages/ble-proxy/src/BleProxyHandler.ts:98-237 | all seers and all who scan stay registered connections if and only if the event is not a report, or a handshake during a scan, of a connection that was torn down |
| BleHub.RegisteredOverRun | packages/ble-proxy/src/BleProxyHandler.ts:98-237 | over every run without such an event each owner, each seer and everyone scanning is a registered connection |
| BleHub.ScanStopsWhenEmptied | packages/ble-proxy/src/BleProxyHandler.ts:189-196 | the aggregate `scanStopped` is emitted once, exactly when something empties the scanning set other than a requested stop, or than unregistering while a connection that was torn down is in it |
| BleHub.EveryScanEndsOnce | packages/ble-proxy/src/BleProxyHandler.ts:135-196 | over every run each scan ends in one of those two ways without the event, by one aggregate `scanStopped`, or not yet |
| BleHubHistory.HubFollowsHistory | packages/ble-proxy/src/BleProxyHandler.ts:80-237 | after every run the hub is what the list of events alone says: who is registered, open and ready, who reported what, whether a scan is wanted, and who is scanning, which is whose last start of a scan has had no end since |
| BleHubHistory.LoneScannerEndsScan | packages/ble-proxy/src/BleProxyHandler.ts:135-196 | a started scan of one connected client ends with one aggregate `scanStopped` when that client reports its end |
| BleProxyHandler.Handler.StartScan | packages/ble-proxy/src/BleProxyHandler.ts:135-151 | the loop tells exactly the connected clients and marks them scanning |
| BleProxyHandler.Handler.OnDeviceDiscovered | packages/ble-proxy/src/BleProxyHandler.ts:198-213 | the reporter becomes a seer, and the owner where there is no connected one |
| BleProxyHandler.Handler.OnConnectionClosed | packages/ble-proxy/src/BleProxyHandler.ts:215-237 | the loops over addresses and seers reassign or delete every entry as specified |
| BleProxyHandler.Handler.Unregister | packages/ble-proxy/src/BleProxyHandler.ts:98-127 | closing every registered connection in turn and clearing leaves the hub empty, with at most one aggregate `scanStopped` |
| BleHandles.StepKeepsInv | python_ble_proxy/matter_ble_proxy/client.py:235-464 | every filed connection is the latest one established under its handle, exactly the live ones can still be reported, and each reported one was reported once |
| BleHandles.ReachableStatesAreSound | python_ble_proxy/matter_ble_proxy/client.py:235-464 | and so it is in every reachable state |
| BleHandles.OnlyLiveIsReported | python_ble_proxy/matter_ble_proxy/client.py:425-436 | a step reports one live connection, which is live no more, or nothing |
| BleHandles.FateIsFinal | python_ble_proxy/matter_ble_proxy/client.py:235-251 | a connection once reported, disconnected, released or overwritten stays so |
| BleHandles.SealedByCommandOrRelease | python_ble_proxy/matter_ble_proxy/client.py:455-464 | an accepted disconnect command, a release that visits it and the end of a release each take a live connection out of reporting |
| BleHandles.CallbackReportsItsOwn | python_ble_proxy/matter_ble_proxy/client.py:425-436 | a callback reports the connection of its own attempt or nothing, if and only if no other connection with its handle is live |
| BleHandles.OneEventPerHandle | python_ble_proxy/matter_ble_proxy/client.py:411-464 | over every run in which fewer than 65536 attempts follow a connect, its handle yields at most one `disconnected` event, and none after a report, an accepted disconnect or a release |
| BleHandles.OverwrittenExactly | python_ble_proxy/matter_ble_proxy/client.py:422-451 | a live connection is lost exactly when a new one is established under its handle |
| BleHandles.NoneLost | python_ble_proxy/matter_ble_proxy/client.py:411-464 | while no handle is reused in this way, every established connection is live, reported, disconnected by command or released |
| BleHandleHistory.HandlesFollowHistory | python_ble_proxy/matter_ble_proxy/client.py:235-464 | after every run the proxy is what the list of events alone says: which attempts were established, what became of each, and which are on file, with handles in plain numbers |
| BleHandleHistory.SuccessIsEstablished | python_ble_proxy/matter_ble_proxy/client.py:411-464 | in every run a connect that succeeds is live and on file, its callback reports it, and the disconnect command finds it |
| BleHandleHistory.SuccessIsAccountedFor | python_ble_proxy/matter_ble_proxy/client.py:411-464 | over every run in which no handle in use is taken, the connects that succeeded are exactly the connections that are live, reported, disconnected by command or released |
| BleProxyClient.MatterBleProxy.BeginConnecting | python_ble_proxy/matter_ble_proxy/client.py:411-423 | a handle is taken before the attempt, and none when the address does not resolve |
| BleProxyClient.MatterBleProxy.FinishConnecting | python_ble_proxy/matter_ble_proxy/client.py:438-453 | only an attempt that succeeds is filed |
| BleProxyClient.MatterBleProxy.DisconnectedCallback | python_ble_proxy/matter_ble_proxy/client.py:425-436 | the entry is taken out and one event with its handle sent, unless it is unknown or the disconnect intended |
| BleProxyClient.MatterBleProxy.HandleDisconnect | python_ble_proxy/matter_ble_proxy/client.py:455-464 | the entry is taken out; an unknown handle is an error and changes nothing |
| BleProxyClient.MatterBleProxy.ReleaseOne | python_ble_proxy/matter_ble_proxy/client.py:244-250 | a connected client is flagged before it is disconnected |
| StableSort.SortedIsOrdered | packages/dashboard/src/util/thermostat-schedule.ts:264-269 | the sort orders by key and keeps equal keys in their order |
| StableSort.OrderIsUnique | packages/dashboard/src/util/thermostat-schedule.ts:264-269 | there is only one such order |
| Thermostat.LatestOfDay | packages/dashboard/src/util/thermostat-schedule.ts:304-314 | within a day the last transition not after a minute is the nearest one back on the cyclic week, the last listed on ties |
| Thermostat.DaysByBit | packages/dashboard/src/util/thermostat-schedule.ts:22-24 | which bit claims which day: Monday bit 1 to Saturday bit 6, and Sunday bit 0 |
| Thermostat.CarriedOver | packages/dashboard/src/util/thermostat-schedule.ts:282-303 | before the day's first transition it is the last transition of the nearest earlier covered day, the day itself a week ago coming last |
| Thermostat.ActiveIsUnique | packages/dashboard/src/util/thermostat-schedule.ts:290-294 | at each minute just one transition is in force |
| Thermostat.FindCarryOverTransition | packages/dashboard/src/util/thermostat-schedule.ts:282-288 | the backward search finds the nearest earlier covered day, and nothing only when no other day is covered |
| Thermostat.BuildDaySegments | packages/dashboard/src/util/thermostat-schedule.ts:295-316 | no segments exactly for a day without transitions; otherwise segments from minute 0 to 1440 without gaps, each showing, at every one of its minutes, the transition in force |
| Thermostat.OneSegmentPerMinute | packages/dashboard/src/util/thermostat-schedule.ts:290-316 | each minute lies in exactly one segment |
| SubscriberKeys.JoinIsInjective | python_client/matter_server/client/client.py:121 | the slash-joined key determines its parts although paths contain slashes |
| SubscriberKeys.KeyIsInjective | python_client/matter_server/client/client.py:111-121 | two subscriptions share a key exactly when their filters are the same |
| SubscriberKeys.LookedUpOnce | python_client/matter_server/client/client.py:968-978 | an event looks up a subscription's key once when its filters select it and not at all otherwise; twice when its path is `*` |
| SubscriberKeys.LookupOrder | python_client/matter_server/client/client.py:968-978 | the keys an event looks up, in the order in which their callbacks are called |
| SubscriberKeys.IndexMatchesScan | python_client/matter_server/client/client.py:960-979 | for every list of active subscriptions the callbacks called are exactly the multiset that a scan of all filters selects |
| SubscriberKeys.IndexIsExact | python_client/matter_server/client/client.py:960-979 | this holds if and only if the event's path is not `*` or nobody is selected |
| SubscriberKeys.UnsubscribeForgetsIt | python_client/matter_server/client/client.py:125-128 | removing the first equal callback under the key takes just that subscription out of every scan |
| MatterClient.Client.SubscribeEvents | python_client/matter_server/client/client.py:95-128 | the dictionary keeps representing the active subscriptions, one more now |
| MatterClient.Client.Unsubscribe | python_client/matter_server/client/client.py:125-128 | one fewer, or an error when none is left |
| MatterClient.Client.SignalEvent | python_client/matter_server/client/client.py:960-979 | the nested loops call, in order, what the keys hold, which is the scan for every event whose path is not `*` |
| Tariff.EntriesAreOrdered | packages/dashboard/src/util/commodity-tariff.ts:246-252 | a day's described entries, as often as listed, in time order |
| Tariff.KnownIdById | packages/dashboard/src/util/commodity-tariff.ts:246-251 | the ids of a day are gone through one by one, and one without a description is dropped |
| Tariff.EntriesKeepOrder | packages/dashboard/src/util/commodity-tariff.ts:246-252 | entries that start together stay in the order in which the day lists them |
| Tariff.DayLength | packages/dashboard/src/util/commodity-tariff.ts:278-282 | a day has 1500 minutes if one of its described entries starts in the 25th hour, and 1440 otherwise |
| Tariff.DayIsLaidBehind | packages/dashboard/src/util/commodity-tariff.ts:296-316 | the entries of each further day lie behind the others, at their minutes after 1440 for each day before it and 60 more for each long one |
| Tariff.PeriodKeyIsInjective | packages/dashboard/src/util/commodity-tariff.ts:254-276 | two entries have the same period key exactly when the same periods list them |
| Tariff.BuildTimeline | packages/dashboard/src/util/commodity-tariff.ts:296-316 | the accumulating loops lay the days end to end as specified |
| Tariff.TimelineIsSorted | packages/dashboard/src/util/commodity-tariff.ts:278-316 | with starts from 0 to 1500 the timeline of any number of days is in time order |
| Tariff.RangeEnd | packages/dashboard/src/util/commodity-tariff.ts:327-337 | the first later slot with a later start and another key ends the range; none, or no such position, leaves it open |
| Tariff.RangeEndsAtFirstChange | packages/dashboard/src/util/commodity-tariff.ts:322-337 | on such a timeline that is the earliest later start at which the set of periods differs, over all slots |
| Tariff.OpenRangeNeverChanges | packages/dashboard/src/util/commodity-tariff.ts:322-337 | and an open range is followed by no other set of periods |
| Tariff.RowsEndInTime | packages/dashboard/src/util/commodity-tariff.ts:340-357 | each daily row starts with its entry and ends where the next one starts, at minute 1440 or 1500 of the day, or after its duration if that is over earlier |
| Tariff.RowsNeverOverlap | packages/dashboard/src/util/commodity-tariff.ts:340-361 | no daily row reaches into a later one; a row ends before it starts exactly when its duration is negative |
| Tariff.RowsTileTheDay | packages/dashboard/src/util/commodity-tariff.ts:340-361 | without durations the rows tile the time from the first start, up to the day's end if and only if no start lies beyond minute 1500 |

## Left out

- JsonExact.JsonRoundTripIff: how `Number` rounds an integer below -(2^53-1) is a parameter, and a floating-point number stands for itself by the literal it is written as; negative zero, integral floating-point numbers above 2^53-1, indentation, escaped surrogates and `BigInt()` forms other than decimal after the marker are not modelled.
- TlvFormat.ValueRoundTrip: floats are raw bytes, so their numeric value and the host byte order used when writing them (little-endian is assumed) are not modelled; strings are byte sequences without UTF-8 validity.
- SchemaLaws.ConformingIsEncoded: Python's coercion `elementType(val)` is not modelled, so values already have the field's type; an enum is looked up by an integer only.
- SchemaReader.TagDictToLabelDict: a list field fed a TLV value that Python can iterate but that is not an array counts as an error in the model.
- BleProxyConnection.Connection.HandleTextMessage: events are the message kind without effect after the handshake; JSON texts that are no objects, on which the handler throws, are not modelled.
- LogRotation.LinesAreConserved: a backup shift, final rename or final open that fails is left out, since the code logs it and goes on, losing lines; a temp file that does not open is in.
- FileLogger.Logger: the flushing of streams is a step of LogRotation without a method here, because the runtime performs it.
- BleProxyClient.MatterBleProxy: connection records are values in the dictionary, not shared objects; an event is counted when it is scheduled, not when the socket takes it.
- BleProxyHandler.Handler: connections are numbers and their `connected` getters two sets; the iteration order over connections and addresses is left open, that over seers is kept.
- MatterClient.Client.SignalEvent: callbacks that subscribe or unsubscribe while an event is signalled are not modelled.
- Thermostat.BuildDaySegments: a segment carries the setpoints as one record; preset resolution before it is a lookup and is left out.
- Tariff.BuildDailySchedule: labels, prices and component lookup of a row are left out as plain lookups.
- WebSocket, aiohttp, Bleak, Noble, HTTP upload and the clock: their calls are steps that may or may not happen.
- `matterNameToWireField` with its override tables, descriptor registration and dataclass creation: table lookups.
- Recursion limits of Python and JavaScript, and the reader's private list of decodings.
- Scan deduplication, GATT commands and binary frames of the Python proxy: forwarding without state that outlives a command.
- Dashboard pages, WebRTC, the cluster generator and one-formula helpers: no property beyond their bodies.
