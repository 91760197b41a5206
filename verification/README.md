# Verified model of the message layer

The inventory service and the robots exchange two kinds of bytes.  Both are
modelled here, with the state the code keeps while it writes and reads them.

**Protocol buffers** (`robots/proto/inventory.pb.cc`, `inventory.pb.h`).  The
generated message objects are classes with has-bits, sub-messages that stay
allocated when cleared, cached sizes and unknown records.  Each method is proved
against the plain record the object stands for, and each record against a
schema-generic account of merging, encoding and parsing, for which the laws of
the format are proved once.

| file | holds |
|---|---|
| `wire.dfy` | varints, fixed-width numbers, tagged records and groups, as bytes |
| `message.dfy`, `codec.dfy`, `laws.dfy`, `maporder.dfy`, `deterministic.dfy` | schemas and messages as values; the merge, round-trip, map-order and normalisation laws |
| `wirebytes.dfy` | which byte of a varint, number or record stands where |
| `inventory.dfy`, `messagelaws.dfy` | the messages of `inventory.proto` as records |
| `messagebytes.dfy`, `writtenbytes.dfy` | each message byte for byte, as it is read and as it is written |
| `cachedsizes.dfy` | what is written from cached sizes, true or not |
| `objects.dfy`, `restock.dfy`, `report.dfy`, `availability.dfy` | the message objects |
| `itemparse.dfy`, `countparse.dfy`, `availabilityparse.dfy` | parsing into the objects |
| `restockruns.dfy`, `runs.dfy` | runs of calls on two messages; messages that are passed on |
| `parsetable.dfy` | the parse tables: fast path, slow path, and that they agree |

**FlatBuffers** (`inventory/internal/mq/publisher.go`, the accessors in Go and
C++).  A builder fills an array from its end, growing it as needed; the
accessors follow offsets and vtables; the generated verifier, which a reader may
run first, checks a buffer.  The robot (`robots/internal/bot/main.cpp`) reads
without it and answers with a protocol-buffer report: `robot.dfy` joins the two.

| file | holds |
|---|---|
| `flatbuffer.dfy` | reading tables, vectors and strings |
| `builder.dfy`, `kinds.dfy` | the builder, with its sharing of vtables |
| `broadcast.dfy`, `publisher.dfy` | items, the order, SendRobotCommand and what is read back |
| `verifier.dfy`, `verifiedreads.dfy` | the generated verifier, what it accepts, and that this is read without a fault |
| `flatbytes.dfy`, `readbytes.dfy` | the format in bytes alone; what verifier, accessors and publisher come to in it |
| `terminators.dfy` | broadcasts with one byte changed that are refused |
| `mutate.dfy` | what another quantity leaves of a broadcast |
| `accessors.dfy` | the accessor objects, and changing a quantity in place |

## Reading the model

- Strings are byte strings.  A double is its 64-bit pattern, as the code compares
  it, so that -0.0 is not the default.  Integers are bounded where the code's are.
- A has-bits word is the set of the bits that are set.  `_impl_` is one value
  that a method replaces field by field.  `Valid` is the representation
  invariant, `Value` the record; every method keeps the first and says what
  becomes of the second.  `RestockRuns.Run` says so of any run of calls on two
  messages that own messages.  A nested message is edited through a pointer to it;
  `Adopt` then notes what it has come to own, and `ItemEdited` says that the whole
  message is valid again and what it is.
- What two sides that agree could both have wrong is also stated without them, in
  bytes and plain numbers: `wirebytes.dfy`, `messagebytes.dfy`, `writtenbytes.dfy`,
  `flatbytes.dfy`, `readbytes.dfy`.
- Map iteration order, the walk, is a parameter that may differ between passes.
- The runtimes are not part of the repository.  Varints, records, map entries and
  table dispatch follow the Protocol Buffers "Encoding" guide (sections "Base 128
  Varints", "Message Structure", "Last One Wins", "Maps", "Field Order"); the
  builder, vtables and the verifier follow the FlatBuffers "Internals" document
  (sections "Tables", "Vectors", "Strings").
- The accessors in Go and C++ follow the same offsets and are modelled once, in
  `flatbuffer.dfy` and `broadcast.dfy`; `accessors.dfy` holds the Go objects.
- Positions in a buffer under construction are distances from its end, as the
  builder's offsets are.  `Tail(b, a)` says that b ends with a.
- The quantity that a mutation stores may be 0; it is then read as 0 as one that
  is not stored.

## Model

| member | source | states |
|---|---|---|
| `Codec.ParseOfSerialize` | robots/proto/inventory.pb.cc:4527-4600 | For every schema, all messages m and b and every order of walking maps: parsing the encoding of b on top of m gives exactly the merge of b into m (empty scalars do not overwrite, sub-messages merge recursively, lists append, map keys are last-wins, unknown records append) |
| `Codec.ConcatIsMerge` | robots/proto/inventory.pb.cc:5663-5712 | Two encodings set one behind the other parse to the merge of the two messages |
| `Codec.ParseSerializeRoundTrip` | robots/proto/inventory.pb.cc:4371-4459 | Every message below 2 GiB is what its encoding parses to |
| `Codec.ParseConcat` | robots/proto/inventory.pb.cc:4256-4334 | For every x the parser accepts and every y, accepted or not: parsing the two joined is parsing y on top of what x gave |
| `Codec.MergeIdentity` | robots/proto/inventory.pb.cc:4905-4939 | The default message is a two-sided identity of merging |
| `Codec.MergeAssociative` | robots/proto/inventory.pb.cc:4527-4600 | Merging is associative, through nested messages, lists and maps |
| `Codec.ParseStep` | robots/proto/inventory.pb.cc:5435-5494 | Parsing an input is storing its first record and parsing the rest, and fails exactly when one of the two does: what the parse loops rely on |
| `Laws.ParseFieldwise` | robots/proto/inventory.pb.cc:5435-5494 | After any records, each field depends only on the records it accepts, in their order, and the unknown set is the old one and the records no field accepts, in their order |
| `Laws.FieldOrderIrrelevant` | robots/proto/inventory.pb.cc:5435-5494 | Inputs with the same records field by field parse to the same message, however the fields are interleaved |
| `Laws.UnknownTransparent` | robots/proto/inventory.pb.cc:5437-5483 | Unknown records put anywhere between two well-formed inputs change no field and not whether the input is accepted; only the unknown set grows, at that place |
| `Deterministic.Normalisation` | robots/proto/inventory.pb.cc:5523-5608 | For every input the parser accepts: what is serialized after parsing it parses to the same message, and ends with the unknown records of the input, in their order |
| `Deterministic.DeterministicBytes` | robots/proto/inventory.pb.cc:5568-5578 | In deterministic mode a message has one encoding, whatever orders its maps, at any depth, are walked in |
| `Deterministic.NormalisationDeterministic` | robots/proto/inventory.pb.cc:5523-5608 | In deterministic mode parsing what was serialized and serializing that gives the same bytes, although the maps of the new message are walked in another order than those of the old one |
| `Laws.OrderKeepsSize` | robots/proto/inventory.pb.cc:5648-5657 | Whatever order maps are walked in, at any depth, the encoding has the same length |
| `MapOrder.SortKeysSorts` | robots/proto/inventory.pb.cc:5568-5578 | Sorting the keys of a map lists each key once, in strictly rising order, which `SmallerByteLess` says in bytes |
| `MapOrder.SmallerByteLess` | robots/proto/inventory.pb.cc:5568-5569 | Which order that is: where two keys first differ the one with the smaller byte comes first, and a key comes before every longer one that it begins |
| `MapOrder.SmallerFirst` | robots/proto/inventory.pb.cc:5568-5578 | In the sorted listing of any walk of a map the smaller of two keys stands before the other |
| `MapOrder.SortKeysCanonical` | robots/proto/inventory.pb.cc:1377-1398 | Two walks of the same map give the same sorted keys |
| `MessageLaws.RestockItemsJoined` | robots/proto/inventory.pb.cc:4371-4600 | The encodings of two RestockItems, joined, parse to what MergeImpl makes of them |
| `MessageLaws.RestockRequestsJoined` | robots/proto/inventory.pb.cc:4818-4939 | The same for RestockItemsOrderRequest |
| `MessageLaws.ReportsJoined` | robots/proto/inventory.pb.cc:5523-5712 | The same for ReportJobStatusRequest, each map walked in any order |
| `MessageLaws.AvailabilitiesJoined` | robots/proto/inventory.pb.cc:1352-1461 | The same for CheckAvailabilityResponse, each map walked in any order |
| `MessageLaws.SkusJoined` | robots/proto/inventory.pb.cc:968-1060 | The same for CheckAvailabilityRequest |
| `MessageLaws.StockLevelsJoined` | robots/proto/inventory.pb.cc:1679-1847 | The same for StockLevel |
| `Wire.ReadRecsOfEncode` | robots/proto/inventory.pb.cc:4453-4459 | Encoded records of any kind, nested groups included, in front of any input are read back, and the rest is read as it would be alone |
| `Wire.RecsSizeIsLength` | robots/proto/inventory.pb.cc:4523-4524 | The size computed for unknown records is the length of their encoding |
| `WireBytes.VarintDigit` | robots/proto/inventory.pb.cc:4420-4426 | The bytes of a varint: byte i holds the i-th seven bits of the number, and every byte but the last has its high bit set |
| `WireBytes.VarintReads` | robots/proto/inventory.pb.cc:4286-4290 | Any bytes that end with the first one below 128 are read as the number whose i-th seven bits byte i holds, the shortest form or not |
| `WireBytes.VarintRefused` | robots/proto/inventory.pb.cc:4286-4290 | Bytes none of which, up to the greatest length, is below 128 are refused |
| `WireBytes.IntegerWritten` | robots/proto/inventory.pb.cc:4420-4426 | The varint of an integer is the integer itself modulo 2 to the 64: two's complement, for negative 32-bit numbers too, and no zigzag |
| `WireBytes.IntegerRead` | robots/proto/inventory.pb.cc:4288-4290 | Of any varint, whoever wrote it, an int64 is the number in two's complement and an int32 the number modulo 2 to the 32 |
| `WireBytes.FixedDigit` | robots/proto/inventory.pb.cc:4428-4435 | Byte i of a fixed-width number is its i-th eight bits: the lowest byte comes first |
| `WireBytes.FixedValue` | inventory/fbs/RobotMessages/Item.go:52-58 | Of any bytes, byte i is the i-th eight bits of the number read from them |
| `WireBytes.FixedBytes` | inventory/internal/mq/publisher.go:43-66 | The two bytes and the four bytes of a number, one by one |
| `WireBytes.RecordBytes` | robots/proto/inventory.pb.cc:4371-4459 | Each kind of record from its first byte to its last: the tag is 8 times the number plus 0, 1, 2 or 5, and a group stands between tags with 3 and 4 |
| `WireBytes.RecordsBytes` | robots/proto/inventory.pb.cc:4453-4459 | Records are written one behind the other with nothing between them |
| `WireBytes.RecordsRead` | robots/proto/inventory.pb.cc:5477-5483 | For every input: which record the low three bits of its tag announce, how many bytes that takes, and when it is refused |
| `WireBytes.RecordsFollow` | robots/proto/inventory.pb.cc:5477-5483 | Any record that is not an end tag is followed by the others, and an input one of whose records is refused is refused |
| `WireBytes.GroupsRead` | robots/proto/inventory.pb.cc:5477-5483 | An end tag closes the group of its own number and is refused anywhere else, and input may not end inside a group |
| `WireBytes.TagsRead` | robots/proto/inventory.pb.cc:5477-5483 | A tag is the low 32 bits of a varint of five bytes at most; a length is below 2 GiB and not beyond the input |
| `Inventory.TimestampEncoding` | robots/proto/inventory.pb.cc:4438-4450 | The field-by-field encoding of a Timestamp, which is a sub-message of RestockItem is the schema-generic one |
| `Inventory.StockLevelEncoding` | robots/proto/inventory.pb.cc:1679-1744 | The field-by-field encoding of a StockLevel is the schema-generic one |
| `Inventory.RestockItemEncoding` | robots/proto/inventory.pb.cc:4371-4459 | The field-by-field encoding of a RestockItem is the schema-generic one |
| `Inventory.RestockRequestEncoding` | robots/proto/inventory.pb.cc:4818-4867 | The field-by-field encoding of a RestockItemsOrderRequest is the schema-generic one |
| `Inventory.ReportEncoding` | robots/proto/inventory.pb.cc:5523-5608 | The field-by-field encoding of a ReportJobStatusRequest is the schema-generic one |
| `Inventory.AvailabilityEncoding` | robots/proto/inventory.pb.cc:1352-1407 | The field-by-field encoding of a CheckAvailabilityResponse is the schema-generic one |
| `Inventory.SkusEncoding` | robots/proto/inventory.pb.cc:968-1004 | The field-by-field encoding of a CheckAvailabilityRequest is the schema-generic one |
| `Inventory.StockLevelMerge` | robots/proto/inventory.pb.cc:1796-1847 | The field-by-field merge of StockLevel is the schema-generic one |
| `Inventory.RestockItemMerge` | robots/proto/inventory.pb.cc:4527-4600 | The field-by-field merge of RestockItem is the schema-generic one |
| `Inventory.RestockRequestMerge` | robots/proto/inventory.pb.cc:4905-4939 | The field-by-field merge of RestockItemsOrderRequest is the schema-generic one |
| `Inventory.ReportMerge` | robots/proto/inventory.pb.cc:5663-5712 | The field-by-field merge of ReportJobStatusRequest is the schema-generic one |
| `Inventory.AvailabilityMerge` | robots/proto/inventory.pb.cc:1441-1461 | The field-by-field merge of CheckAvailabilityResponse is the schema-generic one |
| `Inventory.SkusMerge` | robots/proto/inventory.pb.cc:1037-1060 | The field-by-field merge of CheckAvailabilityRequest is the schema-generic one |
| `MessageLaws.TimestampMergedFields` | robots/proto/inventory.pb.cc:4297-4304 | The merge of two dates, field by field: what is set in the source wins, unknown records append |
| `MessageLaws.RestockItemMergedFields` | robots/proto/inventory.pb.cc:4527-4600 | The merge of two items, field by field: what is set in the source wins, and dates that both have are merged |
| `MessageLaws.RestockRequestMergedFields` | robots/proto/inventory.pb.cc:4905-4939 | The items of the source follow those of the target; an order id that is set wins |
| `MessageLaws.ReportMergedFields` | robots/proto/inventory.pb.cc:5663-5712 | Strings that are set win; the map has the keys of both, with the source's count where both have one |
| `MessageLaws.AvailabilityMergedFields` | robots/proto/inventory.pb.cc:1441-1461 | The map has the keys of both, with the source's whole level where both have one |
| `MessageLaws.StockLevelMergedFields` | robots/proto/inventory.pb.cc:1796-1847 | What is set in the source wins |
| `MessageLaws.SkusMergedFields` | robots/proto/inventory.pb.cc:1037-1060 | The list of the source follows that of the target |
| `MessageBytes.TimestampRead` | robots/proto/inventory.pb.cc:4297-4304 | The bytes 08 and 16 with any varint behind them set the seconds to its 64 bits and the nanos to its low 32 |
| `MessageBytes.ItemStringRead` | robots/proto/inventory.pb.cc:4276-4288 | The bytes 10, 18 and 26, each with a length and so many bytes behind it, set sku, name and aisle type |
| `MessageBytes.ItemNumberRead` | robots/proto/inventory.pb.cc:4288-4296 | The byte 32 with any varint behind it sets the quantity to the integer with its low 32 bits, and the byte 41 with eight bytes the unit cost to these |
| `MessageBytes.ItemDateRead` | robots/proto/inventory.pb.cc:4297-4304 | The bytes 50 and 58 with a length and so many bytes parse these into the date there is, or into an empty one, and fail when these do |
| `MessageBytes.ItemUnknownRead` | robots/proto/inventory.pb.cc:4256-4322 | A record with a number above 7, of any type, changes no field and is kept last among the unknown ones |
| `MessageBytes.ItemNothingRead` | robots/proto/inventory.pb.cc:4256-4334 | No bytes parse to an item that is empty in every field |
| `MessageBytes.RequestRead` | robots/proto/inventory.pb.cc:4773-4790 | The byte 10 with a string sets the order id; the byte 18 with an item appends what the item parses to from nothing, and fails when that does |
| `MessageBytes.StockRead` | robots/proto/inventory.pb.cc:1598-1640 | The bytes 10, 18, 26 and 32 set sku, name, aisle type and quantity of a level |
| `MessageBytes.ReportStringRead` | robots/proto/inventory.pb.cc:5462-5483 | The bytes 10, 26 and 42 with a string set order id, status and order type; 18, the retired field, is kept as unknown |
| `MessageBytes.ReportEntryRead` | robots/proto/inventory.pb.cc:5263-5305 | The byte 34 with an entry of a key (10) and a count (16) stores the count under the key, over the one that is there, and 0 when the entry has no count |
| `MessageBytes.SkusRead` | robots/proto/inventory.pb.cc:918-950 | The byte 10 with a string appends it |
| `MessageBytes.AvailabilityEntryRead` | robots/proto/inventory.pb.cc:1134-1178 | The byte 10 with an entry of a key (10) and a level (18) stores under the key what the level parses to from nothing, and fails when that does |
| `WrittenBytes.TimestampWritten` | robots/proto/inventory.pb.cc:4438-4450 | A date as it is written: the byte 8 and the seconds, the byte 16 and the nanos, each unless 0, and its unknown records |
| `WrittenBytes.ItemWritten` | robots/proto/inventory.pb.cc:4371-4459 | An item as it is written from any cached sizes, byte for byte: its fields behind the bytes 10, 18, 26, 32, 41, 50 and 58 in this order, defaults left out, dates that are present never |
| `WrittenBytes.RequestWritten` | robots/proto/inventory.pb.cc:4818-4867 | The order id behind the byte 10, the items, the unknown records |
| `WrittenBytes.ItemsWritten` | robots/proto/inventory.pb.cc:4818-4867 | One more item is one more byte 18, cached size and item at the end |
| `WrittenBytes.StockWritten` | robots/proto/inventory.pb.cc:1679-1744 | A level as it is written, behind the bytes 10, 18, 26 and 32 |
| `WrittenBytes.SkusWritten` | robots/proto/inventory.pb.cc:968-1004 | One more string is one more byte 10, length and string, also when it is empty |
| `WrittenBytes.ReportWritten` | robots/proto/inventory.pb.cc:5523-5608 | A report as it is written: order id behind 10, status behind 26, the entries in the order listed, order type behind 42 |
| `WrittenBytes.CountEntryWritten` | robots/proto/inventory.pb.cc:5579-5589 | An entry of the map of counts, byte for byte: always a key and always a count, a count of 0 too |
| `WrittenBytes.SmallerCountFirst` | robots/proto/inventory.pb.cc:5568-5578 | In deterministic mode, whatever order the map is walked in: of any two keys the entry of the smaller is written first, and both are written |
| `WrittenBytes.EarlierCountFirst` | robots/proto/inventory.pb.cc:5579-5589 | Otherwise of any two keys the entry of the one walked first is written first |
| `WrittenBytes.LevelEntryWritten` | robots/proto/inventory.pb.cc:1371-1398 | An entry of the map of levels, byte for byte, from any cached size |
| `WrittenBytes.LevelsWritten` | robots/proto/inventory.pb.cc:1371-1398 | One more level is one more such entry |
| `WrittenBytes.SmallerLevelFirst` | robots/proto/inventory.pb.cc:1377-1386 | As for the map of counts, in deterministic mode |
| `WrittenBytes.EarlierLevelFirst` | robots/proto/inventory.pb.cc:1387-1398 | As for the map of counts, otherwise |
| `Inventory.CacheDecides` | robots/proto/inventory.pb.cc:4438-4450 | The second pass writes the encoding if and only if every date it writes has its true size cached: a size left over from before a change shows |
| `CachedSizes.RequestCacheDecides` | robots/proto/inventory.pb.cc:4818-4867 | For a list of items and any cached sizes of them and of their dates: what is written from these is the encoding if and only if each item and each present date has its true size cached |
| `CachedSizes.AvailabilityCacheDecides` | robots/proto/inventory.pb.cc:1352-1407 | For a map of levels and any cached sizes: what is written from these, entry lengths included, is the encoding if and only if every level has its true size cached |
| `Objects.MergeDate` | robots/proto/inventory.pb.cc:4570-4577 | A date present in the source is copied when the target has none allocated and merged into the one there is otherwise; into a cleared one it comes to a copy |
| `Objects.RestockItem.CopyOf` | robots/proto/inventory.pb.cc:4148-4176 | The copy has the same value and sub-messages of its own; cleared sub-messages are not copied |
| `Objects.RestockItem.Clear` | robots/proto/inventory.pb.cc:4335-4369 | The item reads as the default although only fields with a set has-bit are reset, and allocated dates are kept |
| `Objects.RestockItem.MergeFrom` | robots/proto/inventory.pb.cc:4527-4600 | Keeps the invariant and leaves the merge of the two values, whatever cleared sub-messages the target retains |
| `Objects.RestockItem.CopyFrom` | robots/proto/inventory.pb.cc:4602-4607 | Leaves the value of the source, whatever the target held, and does nothing to itself |
| `Objects.RestockItem.InternalSwap` | robots/proto/inventory.pb.cc:4610-4625 | The two objects exchange values, fields and the dates they hold, so that whatever could be called on the two before still can |
| `Objects.RestockItem.SetSku` | robots/proto/inventory.pb.h:4338-4344 | Sets the field and its has-bit and nothing else, for an empty string too |
| `Objects.RestockItem.ClearSku` | robots/proto/inventory.pb.h:4327-4332 | Empties the field and clears its has-bit |
| `Objects.RestockItem.MutableSku` | robots/proto/inventory.pb.h:4345-4351 | An edit through the string handed out is the field's new value, and the field counts as present whatever it is |
| `Objects.RestockItem.ReleaseSku` | robots/proto/inventory.pb.h:4364-4376 | Gives the string away if the has-bit is set and leaves the field empty |
| `Objects.RestockItem.SetAllocatedSku` | robots/proto/inventory.pb.h:4377-4389 | Takes a string over, or none, with the has-bit to match |
| `Objects.RestockItem.SetQuantity` | robots/proto/inventory.pb.h:4532-4536 | Sets the field and its has-bit and nothing else |
| `Objects.RestockItem.ClearQuantity` | robots/proto/inventory.pb.h:4522-4527 | Zeroes the field and clears its has-bit |
| `Objects.RestockItem.SetUnitCost` | robots/proto/inventory.pb.h:4557-4561 | Sets the 64-bit pattern and the has-bit; only the pattern 0 counts as default |
| `Objects.RestockItem.HasMfdDate` | robots/proto/inventory.pb.h:4572-4576 | A set has-bit means that the pointer is not null, which the compiler is told to assume |
| `Objects.RestockItem.GetMfdDate` | robots/proto/inventory.pb.h:4577-4585 | Reads the date that is present and the default for an absent one, also when a cleared one is still allocated |
| `Objects.RestockItem.ClearMfdDate` | robots/proto/inventory.pb.cc:4117-4122 | The date is absent afterwards; the allocation stays |
| `Objects.RestockItem.MutableMfdDate` | robots/proto/inventory.pb.h:4628-4642 | Makes the date present, reusing a cleared one, and hands it out |
| `Objects.RestockItem.ReleaseMfdDate` | robots/proto/inventory.pb.h:4600-4618 | Gives away whatever is allocated, a cleared date too, and leaves none |
| `Objects.RestockItem.SetAllocatedMfdDate` | robots/proto/inventory.pb.h:4643-4662 | Takes a date over, or none, with the has-bit to match |
| `Objects.RestockItem.ByteSizeLong` | robots/proto/inventory.pb.cc:4461-4525 | Equals the length of the encoding although it visits the fields in another order, and leaves every date's cached size true |
| `Objects.RestockItem.InternalSerialize` | robots/proto/inventory.pb.cc:4371-4459 | Appends exactly the bytes that the cached sizes determine, which are the encoding when these are true; `ItemWritten` spells them out |
| `ItemParse.ItemApply` | robots/proto/inventory.pb.cc:4276-4322 | Storing one record in an item is the schema-generic step, with the numbers, types and sub-messages of the parse table |
| `ItemParse.ParseDate` | robots/proto/inventory.pb.cc:4297-4304 | A date record is parsed into the date that is allocated, present or cleared, or into a new one, as if into the date the message had |
| `ItemParse.ParseItemRecord` | robots/proto/inventory.pb.cc:4256-4322 | Stores a record under the has-bit of its table entry and keeps the invariant, also when the record is rejected |
| `ItemParse.ParseItem` | robots/proto/inventory.pb.cc:4256-4334 | Table-driven parsing in place accepts what the schema-generic parser accepts, and the object then has the value that one gives, which the `Read` lemmas of `MessageBytes` spell out record by record |
| `Restock.RestockItemsOrderRequest.AddItems` | robots/proto/inventory.pb.h:4856-4865 | Appends a default item of its own and sets the has-bit |
| `Restock.RestockItemsOrderRequest.CopyItem` | robots/proto/inventory.pb.h:4839-4843 | Copying into item k through the pointer to it replaces that item alone, and the message owns the dates this allocates |
| `Restock.RestockItemsOrderRequest.SetItemMfdSeconds` | robots/proto/inventory.pb.h:4839-4843 | Setting the date of item k, through the item and through the date, makes it present and changes that date alone; the message owns a date this allocates |
| `Restock.ItemEdited` | robots/proto/inventory.pb.h:4839-4843 | Whatever is done to one item through the pointer to it, with the others left as they were: the list is valid again among the objects that take in what the item has come to own, and its values are the old ones but for that item's |
| `Restock.RestockItemsOrderRequest.ClearItems` | robots/proto/inventory.pb.h:4833-4838 | Empties the list and clears the has-bit |
| `Restock.RestockItemsOrderRequest.Clear` | robots/proto/inventory.pb.cc:4798-4816 | The message reads as the default although only fields with a set has-bit are reset |
| `Restock.RestockItemsOrderRequest.MergeFrom` | robots/proto/inventory.pb.cc:4905-4939 | Appends deep copies and leaves the merge of the two values; no item of the result is shared with the source |
| `Restock.RestockItemsOrderRequest.CopyFrom` | robots/proto/inventory.pb.cc:4941-4946 | Leaves the value of the source, whatever the target held |
| `Restock.RestockItemsOrderRequest.InternalSwap` | robots/proto/inventory.pb.cc:4949-4957 | The two objects exchange values, fields and all that they own, so that whatever could be called on the two before still can |
| `Restock.RequestApply` | robots/proto/inventory.pb.cc:4753-4790 | Storing one record in the request is the schema-generic step: an order id replaces the old one, an item record appends what it is parsed to, and any other is kept |
| `Restock.RestockItemsOrderRequest.ParseRecord` | robots/proto/inventory.pb.cc:4773-4790 | Stores a record under the has-bit of its table entry, an item with all its dates among what the message owns, and keeps the invariant when the record is rejected |
| `Restock.RestockItemsOrderRequest.MergeFromBytes` | robots/proto/inventory.pb.cc:4753-4797 | Parsing in place, two tables deep, accepts what the schema-generic parser accepts and leaves the value that one gives, on top of any valid message |
| `Restock.RestockItemsOrderRequest.ByteSizeLong` | robots/proto/inventory.pb.cc:4869-4903 | Equals the length of the encoding, and leaves the cached size of every item and of every date in it true |
| `Restock.RestockItemsOrderRequest.InternalSerialize` | robots/proto/inventory.pb.cc:4818-4867 | From any cached sizes: appends exactly the bytes these determine, which are the encoding if and only if every item and every date in one has its true size cached |
| `Restock.RestockItemsOrderRequest.SerializeToBytes` | robots/proto/inventory.pb.cc:4818-4903 | Both passes over an unchanged message give its encoding, which parses back to it, nested items and dates included, or nothing above 2 GiB |
| `Restock.ParseAndSerialize` | robots/proto/inventory.pb.cc:4753-4903 | Sending on what was received: fails exactly for rejected input and for messages above 2 GiB, and else the bytes are the serialization of what was received and parse to the same |
| `RestockRuns.Take` | robots/proto/inventory.pb.cc:4753-4957 | Any call on one of two messages that own nothing in common -- edits of items and dates, clear, merge, copy, swap, parsing any bytes, writing -- leaves both valid and apart, their values as the call has it |
| `RestockRuns.Run` | robots/proto/inventory.pb.cc:4753-4957 | The same over every sequence of calls of any length, on either message: the invariant holds in the end, and the values go from each state to the next as the single calls have it |
| `Restock.SizeEditWrite` | robots/proto/inventory.pb.cc:4438-4450 | First pass, a new time for a present date, second pass: the bytes are the encoding if and only if the date's own encoding has kept its length, which giving a second to a date at 0 does not |
| `Report.ReportJobStatusRequest.Clear` | robots/proto/inventory.pb.cc:5497-5521 | The message reads as the default although only fields with a set has-bit are reset |
| `Report.ReportJobStatusRequest.MergeFrom` | robots/proto/inventory.pb.cc:5663-5712 | Leaves the merge of the two values, map keys last-wins |
| `Report.ReportJobStatusRequest.CopyFrom` | robots/proto/inventory.pb.cc:5714-5719 | Leaves the value of the source, whatever the target held |
| `Report.ReportJobStatusRequest.InternalSwap` | robots/proto/inventory.pb.cc:5722-5732 | The two objects exchange their values |
| `Report.ReportJobStatusRequest.PutProcessedItem` | robots/proto/inventory.pb.h:5072-5077 | Storing through the map handed out keeps the invariant and changes one key |
| `Report.ReportJobStatusRequest.ClearProcessedItems` | robots/proto/inventory.pb.h:5054-5059 | Empties the map and clears the has-bit |
| `Report.ReportJobStatusRequest.ByteSizeLong` | robots/proto/inventory.pb.cc:5610-5661 | Equals the length of the encoding, whatever order the map is walked in |
| `Report.ReportJobStatusRequest.InternalSerialize` | robots/proto/inventory.pb.cc:5523-5608 | Appends the encoding that walks the map as it comes or, in deterministic mode, in key order, the smaller byte first; fewer than two entries need no sorting |
| `Report.ReportJobStatusRequest.SerializeToBytes` | robots/proto/inventory.pb.cc:5523-5661 | The two passes may walk the map in different orders: the size still fits, the bytes are those of the second walk or, in deterministic mode, of the sorted keys, and they parse back to the message |
| `Report.ReportJobStatusRequest.ParseRecord` | robots/proto/inventory.pb.cc:5462-5483 | Stores a record under the has-bit of its table entry and keeps the invariant, also when the record is rejected |
| `Report.ReportJobStatusRequest.MergeFromBytes` | robots/proto/inventory.pb.cc:5435-5494 | The parse loop, driven by the table, accepts what the schema-generic parser accepts and leaves the value that one gives |
| `Report.ReportSizeSame` | robots/proto/inventory.pb.cc:5648-5657 | All walks of the map give encodings of the same length |
| `Report.ReportRoundTrip` | robots/proto/inventory.pb.cc:5562-5589 | All walks of the map give encodings that parse to the same message |
| `Report.ReportDeterministic` | robots/proto/inventory.pb.cc:5568-5578 | In deterministic mode equal messages give identical bytes |
| `Report.ReportNormalised` | robots/proto/inventory.pb.cc:5568-5578 | In deterministic mode parsing any accepted input, writing it, parsing that and writing it again gives the same bytes twice, however the two maps are walked |
| `Report.RetiredFieldUnknown` | inventory/proto/inventory.pb.go:681-691 | A record for the retired field 2, of any wire type, is unknown, so the transparency law covers it |
| `Availability.CheckAvailabilityRequest.AddSkus` | robots/proto/inventory.pb.h:3436-3445 | Appends and sets the has-bit |
| `Availability.CheckAvailabilityRequest.SetSkus` | robots/proto/inventory.pb.h:3430-3435 | Changes one element and not the has-bit, which is set already |
| `Availability.CheckAvailabilityRequest.MutableSkus` | robots/proto/inventory.pb.h:3451-3457 | Whatever is done to the list handed out, the invariant holds |
| `Availability.CheckAvailabilityRequest.ClearSkus` | robots/proto/inventory.pb.h:3404-3409 | Empties the list and clears the has-bit |
| `Availability.CheckAvailabilityRequest.Clear` | robots/proto/inventory.pb.cc:953-967 | The message reads as the default although the list is only reset under its has-bit |
| `Availability.CheckAvailabilityRequest.MergeFrom` | robots/proto/inventory.pb.cc:1037-1060 | Appends the lists |
| `Availability.CheckAvailabilityRequest.CopyFrom` | robots/proto/inventory.pb.cc:1062-1067 | Leaves the value of the source |
| `Availability.CheckAvailabilityRequest.ByteSizeLong` | robots/proto/inventory.pb.cc:1006-1035 | Equals the length of the encoding |
| `Availability.CheckAvailabilityRequest.InternalSerialize` | robots/proto/inventory.pb.cc:968-1004 | In any state appends the elements under a set has-bit and else none; under the invariant that is the encoding |
| `Availability.HasBitDecides` | robots/proto/inventory.pb.cc:987-995 | Elements are lost exactly when the list is not empty under a clear has-bit: the invariant is just what the second pass needs |
| `Availability.StockLevel.SetSku` | robots/proto/inventory.pb.h:3524-3529 | Sets the field and its has-bit and nothing else |
| `Availability.StockLevel.SetQuantityAvailable` | robots/proto/inventory.pb.h:3717-3721 | Sets the field and its has-bit and nothing else |
| `Availability.StockLevel.Clear` | robots/proto/inventory.pb.cc:1655-1678 | The level reads as the default; the quantity is reset without looking at its has-bit |
| `Availability.StockLevel.MergeFrom` | robots/proto/inventory.pb.cc:1796-1847 | Leaves the merge of the two values |
| `Availability.StockLevel.CopyFrom` | robots/proto/inventory.pb.cc:1849-1854 | Leaves the value of the source |
| `Availability.StockLevel.ByteSizeLong` | robots/proto/inventory.pb.cc:1746-1794 | Equals the length of the encoding and fills the cache |
| `Availability.StockLevel.InternalSerialize` | robots/proto/inventory.pb.cc:1679-1744 | Appends the encoding |
| `Availability.CheckAvailabilityResponse.PutItem` | robots/proto/inventory.pb.h:3500-3505 | Storing through the map handed out keeps the invariant and changes one key; the map has its own copy |
| `Availability.CheckAvailabilityResponse.ClearItems` | robots/proto/inventory.pb.h:3482-3487 | Empties the map and clears the has-bit |
| `Availability.CheckAvailabilityResponse.Clear` | robots/proto/inventory.pb.cc:1337-1350 | The message reads as the default although the map is only reset under its has-bit |
| `Availability.CheckAvailabilityResponse.CopyEntries` | robots/proto/inventory.pb.cc:1454-1456 | Merging a map of messages replaces the value of a key that both have, entry by entry, by copies that nobody else holds |
| `Availability.CheckAvailabilityResponse.MergeFrom` | robots/proto/inventory.pb.cc:1441-1461 | Leaves the merge of the two values |
| `Availability.CheckAvailabilityResponse.CopyFrom` | robots/proto/inventory.pb.cc:1463-1468 | Leaves the value of the source, whatever the target held |
| `Availability.CheckAvailabilityResponse.InternalSwap` | robots/proto/inventory.pb.cc:1471-1476 | The two objects exchange values, fields and all that they own, so that whatever could be called on the two before still can |
| `Availability.CheckAvailabilityResponse.ByteSizeLong` | robots/proto/inventory.pb.cc:1409-1439 | Equals the length of the encoding and leaves the cached size of every level in the map true |
| `Availability.CheckAvailabilityResponse.InternalSerialize` | robots/proto/inventory.pb.cc:1352-1407 | From any cached sizes: appends, in walk order or, in deterministic mode, in key order, exactly the entries these determine, which is the encoding if and only if every level has its true size cached |
| `Availability.CheckAvailabilityResponse.SerializeToBytes` | robots/proto/inventory.pb.cc:1352-1439 | The two passes may walk the map in different orders: the size still fits, the bytes are those of the second walk or, in deterministic mode, of the sorted keys, and they parse back to the message |
| `Availability.AvailabilitySizeSame` | robots/proto/inventory.pb.cc:1425-1435 | All walks of the map give encodings of the same length |
| `Availability.AvailabilityRoundTrip` | robots/proto/inventory.pb.cc:1371-1398 | All walks of the map give encodings that parse to the same message |
| `Availability.AvailabilityDeterministic` | robots/proto/inventory.pb.cc:1377-1386 | In deterministic mode equal messages give identical bytes |
| `Availability.AvailabilityNormalised` | robots/proto/inventory.pb.cc:1377-1386 | In deterministic mode parsing any accepted input, writing it, parsing that and writing it again gives the same bytes twice, however the two maps are walked |
| `AvailabilityParse.StockApply` | robots/proto/inventory.pb.cc:1598-1640 | Storing one record in a level is the schema-generic step |
| `AvailabilityParse.ParseStock` | robots/proto/inventory.pb.cc:1598-1653 | Parsing a level in place accepts what the schema-generic parser accepts and leaves the value that one gives |
| `AvailabilityParse.EntryApply` | robots/proto/inventory.pb.cc:1134-1178 | Storing one record in a map entry is the schema-generic step: a later key replaces an earlier one, a later level is parsed on top of an earlier one |
| `AvailabilityParse.ParseEntry` | robots/proto/inventory.pb.cc:1134-1178 | A map entry is parsed as its table directs and accepted as by the schema-generic parser, with the default for a key or level that is not in it |
| `AvailabilityParse.ParseResponse` | robots/proto/inventory.pb.cc:1299-1336 | Parsing in place, through the entries of the map and the levels in them, accepts what the schema-generic parser accepts and leaves the value that one gives |
| `AvailabilityParse.SkusApply` | robots/proto/inventory.pb.cc:918-950 | Storing one record in the request appends a string or keeps an unknown record, as the schema says |
| `AvailabilityParse.ParseSkus` | robots/proto/inventory.pb.cc:918-952 | Parsing in place accepts what the schema-generic parser accepts and leaves the value that one gives |
| `CountParse.CountApply` | robots/proto/inventory.pb.cc:5263-5305 | Storing one record in an entry of the map of counts is the schema-generic step: the last key and the last count win |
| `CountParse.ParseCount` | robots/proto/inventory.pb.cc:5263-5305 | Such an entry is parsed as its table directs and accepted as by the schema-generic parser, a count cut to 32 bits, with none and 0 for what is not in it |
| `Runs.SendReportTwice` | robots/proto/inventory.pb.cc:5435-5661 | Two programs that pass a report on in deterministic mode, each parsing it into an object and walking the maps of its own in orders of its own: the second writes the bytes it got, and nothing is rejected but what the parser rejects or what is above 2 GiB |
| `Runs.SendAvailabilityTwice` | robots/proto/inventory.pb.cc:1299-1461 | The same for CheckAvailabilityResponse, whose map holds messages |
| `ParseTable.Dispatch` | robots/proto/inventory.pb.cc:5435-5494 | The dispatch that looks at one byte first: on any input and any table that fits a schema it picks what the slow path picks, fails exactly when no tag can be read, and the field it picks is the one the schema gives to the record |
| `ParseTable.FindEntryFinds` | robots/proto/inventory.pb.cc:5440-5444 | The rank of a field number in the skip map finds the entry of the field that has the number, and none for a number not in use |
| `ParseTable.SlowIsSlot` | robots/proto/inventory.pb.cc:5462-5483 | For every record the slow path picks the field the schema names with its has-bit and auxiliary entry, or none |
| `ParseTable.FastIsSlow` | robots/proto/inventory.pb.cc:5454-5475 | A byte the fast table accepts is a whole tag, and the slow path would pick the same field, has-bit and auxiliary entry |
| `ParseTable.DispatchIsSlow` | robots/proto/inventory.pb.cc:5437-5483 | For every input fast and slow path together decode and pick as the slow path alone |
| `ParseTable.DispatchIsSlot` | robots/proto/inventory.pb.cc:5437-5483 | Every record that can be read is dispatched to the field that accepts it, and no other |
| `ParseTable.FastPathTaken` | robots/proto/inventory.pb.cc:4276-4305 | The tag of a field with a fast entry never falls through to the slow path, wherever the table puts the entry |
| `ParseTable.RestockItemTableFits` | robots/proto/inventory.pb.cc:4256-4322 | The table of RestockItem fits its schema; all seven fields are on the fast path |
| `ParseTable.RestockRequestTableFits` | robots/proto/inventory.pb.cc:4753-4790 | The table of RestockItemsOrderRequest fits its schema |
| `ParseTable.ReportTableFits` | robots/proto/inventory.pb.cc:5435-5487 | The table of ReportJobStatusRequest, with its gap at 2, fits its schema; all fields but the map at 4 are on the fast path |
| `ParseTable.StockLevelTableFits` | robots/proto/inventory.pb.cc:1598-1640 | The table of StockLevel fits its schema, the entry of field 4 sitting at index 0 |
| `ParseTable.AvailabilityTablesFit` | robots/proto/inventory.pb.cc:1299-1330 | The two availability tables fit their schemas; the map is never on the fast path, the list is |
| `ParseTable.EntryTablesFit` | robots/proto/inventory.pb.cc:1134-1178 | The tables of the two kinds of map entries fit the schemas of key and value, both fields on the fast path |
| `FlatBuffer.StringFieldMoves` | inventory/fbs/RobotMessages/OrderBroadcast.go:44-58 | A string read through vtable and offset is the same wherever the buffer's end is moved to, for any bytes and with wrapping offsets |
| `FlatBuffer.Int32FieldMoves` | inventory/fbs/RobotMessages/Item.go:52-58 | The same for a 32-bit field |
| `Broadcast.ReadItemMoves` | inventory/fbs/RobotMessages/Item.go:44-70 | All accessors of an item give the same after anything is written in front |
| `FlatBuilder.Builder.Grow` | inventory/internal/mq/publisher.go:36-49 | Doubling the buffer keeps what is in it, at its end |
| `FlatBuilder.Builder.Place` | inventory/internal/mq/publisher.go:41-42 | Writes in front of what is there and changes none of it |
| `FlatBuilder.Builder.Prep` | inventory/internal/mq/publisher.go:51-53 | Aligns with zeros, makes room, and never grows past the limit |
| `FlatBuilder.Builder.CreateString` | inventory/internal/mq/publisher.go:41-42 | The string is at the offset returned, terminated by a zero and aligned, behind it the buffer as it was; never inside an open table |
| `FlatBuilder.Builder.PrependUOffset` | inventory/internal/mq/publisher.go:52-54 | The word in front leads to the object at the given offset |
| `FlatBuilder.Builder.PrependUOffsetSlot` | inventory/fbs/RobotMessages/Item.go:75-83 | Writes a reference and records its slot, or neither for the offset 0 |
| `FlatBuilder.Builder.PrependInt32Slot` | inventory/fbs/RobotMessages/Item.go:78-80 | Writes a number and records its slot, or neither for the default 0 |
| `FlatBuilder.Builder.VtableEqual` | inventory/internal/mq/publisher.go:48 | True exactly when the vtable in the buffer says of every field of the open object what a new one would say |
| `FlatBuilder.Builder.FindVtable` | inventory/internal/mq/publisher.go:48 | Finds such a vtable if and only if there is one |
| `FlatBuilder.Builder.FindWholeVtable` | robots/fbs/order_generated.h:69-73 | Finds a vtable that is the same in length, object size and all entries if and only if there is one |
| `FlatBuilder.Builder.EndObject` | inventory/fbs/RobotMessages/Item.go:84-86 | The table points to a vtable through which every field is found at its slot and every absent one is absent, an old one if and only if the comparison of the builder at hand, Go or C++, finds one; what was written before is unchanged, and the space taken is exact |
| `VtableKinds.KindsAfter` | inventory/internal/mq/publisher.go:48 | After an object of one kind is written, a kind has its vtable among those written if and only if it had one before or is that object's kind |
| `VtableKinds.SharesEither` | robots/fbs/order_generated.h:69-73 | With tables of these kinds only, comparing vtables whole and comparing their fields find the same, as the object size follows from the fields |
| `FlatBuilder.Builder.StartVector` | inventory/fbs/RobotMessages/OrderBroadcast.go:92-94 | Aligns such that elements and length will be, and there is room for them |
| `FlatBuilder.Builder.EndVector` | inventory/internal/mq/publisher.go:55 | The length in front of the elements, in the room made for it |
| `FlatBuilder.Builder.Finish` | inventory/internal/mq/publisher.go:66 | The first word leads to the root, and the whole buffer is aligned |
| `FlatBuilder.TableFields` | inventory/fbs/RobotMessages/Item.go:44-70 | The accessors find each field of a finished table where it was put |
| `FlatBuilder.TableHoldsMoves` | inventory/internal/mq/publisher.go:38-67 | A finished table stays one, its fields where they were, whatever is written in front |
| `FlatBuilder.StringAtMoves` | inventory/internal/mq/publisher.go:41-66 | A string stays at its offset whatever is written in front |
| `Broadcast.ItemHoldsMoves` | inventory/internal/mq/publisher.go:48-66 | An item stays at its offset, strings and fields included, whatever is written in front |
| `Broadcast.VectorAtMoves` | inventory/internal/mq/publisher.go:55-66 | A vector stays at its offset, every element leading where it led |
| `Broadcast.WriteItem` | inventory/internal/mq/publisher.go:41-48 | Strings and table of one item, in a stretch of the buffer of their own; a quantity of 0 is not stored |
| `Broadcast.WriteItems` | inventory/internal/mq/publisher.go:38-49 | All items, each recorded at the offset of its table, and no vtable over a stored quantity |
| `Broadcast.WriteVector` | inventory/internal/mq/publisher.go:51-55 | Prepending from the last to the first leaves element j leading to offset j |
| `Broadcast.VectorReads` | inventory/fbs/RobotMessages/OrderBroadcast.go:60-78 | ItemsLength is n and Items(j) is the table recorded as offset j, for every n and every j below it |
| `Broadcast.ItemReads` | inventory/fbs/RobotMessages/Item.go:44-70 | The accessors give sku, quantity and aisle as they were written, a quantity that is not stored as 0 |
| `Broadcast.OrderReads` | inventory/fbs/RobotMessages/OrderBroadcast.go:44-78 | The accessors of the order give its id, its type and its items in their order |
| `Broadcast.WriteOrderTable` | inventory/internal/mq/publisher.go:60-64 | The root table, with a vtable that may be one of an item |
| `Broadcast.FinishOrder` | inventory/internal/mq/publisher.go:51-67 | Vector, strings, root and first word: the buffer then holds the whole order |
| `Publisher.SendRobotCommand` | inventory/internal/mq/publisher.go:34-67 | For every order and every map, ranged over in any order, for whose broadcast the builder has room below its limit of 1 GiB: the length of the payload is what `SizeOf` adds up, the accessors give back exactly that order and that map, read item by item in the order of the walk; in bytes the payload tells just these (`Tells`), and the generated verifier accepts it if and only if it has fewer than 1 000 000 items |
| `Publisher.ManyItemsSent` | inventory/internal/mq/publisher.go:34-67 | Maps of every number of items up to 2 to the 24 can be sent, so that both halves of the previous line have payloads |
| `Publisher.MillionRefused` | robots/fbs/order_generated.h:118-129 | Maps of 999 999 and of 1 000 000 items can be sent; their broadcasts, however the bytes are laid out, are accepted and refused |
| `Publisher.EveryItemOnce` | inventory/internal/mq/publisher.go:39-49 | However the map is ranged over, no item is lost, doubled or given another item's quantity or aisle |
| `Publisher.CreateOrderBroadcast` | robots/fbs/order_generated.h:156-166 | With the fields of every table added in the opposite order and vtables compared whole, as in C++, the broadcast has the same size, reads the same, tells the same in bytes and is accepted alike |
| `Broadcast.FillItemBackwards` | robots/fbs/order_generated.h:76-86 | Adding aisle, quantity, sku fills the same slots as adding sku, quantity, aisle |
| `FlatVerifier.Verifier.VerifyItem` | robots/fbs/order_generated.h:40-49 | Accepts exactly sound items, and counts them and their nesting against the limits |
| `FlatVerifier.Verifier.VerifyOrder` | robots/fbs/order_generated.h:118-129 | Accepts exactly sound orders all of whose items are sound and whose tables are not too many |
| `FlatVerifier.Verifier.VerifyBuffer` | robots/fbs/order_generated.h:191-195 | Accepts exactly the buffers that `Accepted` describes; `AcceptedIsSound` says in bytes which these are |
| `FlatVerifier.ItemAccepted` | robots/fbs/order_generated.h:40-49 | Every written item is sound: its offsets, strings and vtable lie inside the buffer, aligned and terminated |
| `FlatVerifier.WrittenAccepted` | robots/fbs/order_generated.h:118-129 | A broadcast is refused for nothing but its number of items, and then exactly from 1 000 000 on |
| `FlatBytes.AcceptedIsSound` | robots/fbs/order_generated.h:118-129 | For every buffer below 2 GiB, whoever made it: it is accepted if and only if its bytes are sound, each table, vtable, reference, string, vector and quantity inside the buffer and at a multiple of 4 (of 2 for vtables), each string with a zero behind it, and there are fewer than 1 000 000 items |
| `FlatBytes.NumberBytes` | inventory/fbs/RobotMessages/Item.go:52-58 | Numbers of two and four bytes have the lowest byte first, and four bytes are signed in two's complement |
| `ReadBytes.SoundIsRead` | inventory/fbs/RobotMessages/OrderBroadcast.go:44-78 | For every sound buffer, whoever made it: what the accessors give is in the bytes at slots 4, 6 and 8 of the order and of each item, reached through vtable and offset |
| `ReadBytes.AcceptedTerminated` | robots/fbs/order_generated.h:40-49 | Every string that the accessors give of an accepted buffer lies wholly inside it, behind its length, at a multiple of 4, and a zero byte follows it |
| `ReadBytes.SentBytes` | inventory/internal/mq/publisher.go:36-67 | What is sent, in bytes: the first word leads to the order, and order id, type and every item's sku, quantity and aisle are under their slots, lowest byte first, whatever the layout |
| `ReadBytes.PartSizes` | inventory/internal/mq/publisher.go:41-66 | A string, a vector and the whole buffer each end at the next multiple of 4 that has room for them |
| `ReadBytes.ItemSizes` | inventory/internal/mq/publisher.go:40-49 | What an item adds to the size: its two strings, a table of 12 or 16 bytes, and a vtable of 10 if no item before it stores the same fields |
| `ReadBytes.OrderSizes` | inventory/internal/mq/publisher.go:51-66 | What the order adds: the vector, two strings, a table of 16 bytes, a vtable of 10 unless an item has a quantity other than 0, and the first word |
| `Terminators.OrderTerminated` | robots/fbs/order_generated.h:118-129 | A broadcast in which the zero behind the order id or type is changed, and nothing else, is refused |
| `Terminators.ItemTerminated` | robots/fbs/order_generated.h:40-49 | A broadcast in which the zero behind the sku or aisle of any one item is changed, and nothing else, is refused |
| `Terminators.RootMisplaced` | robots/fbs/order_generated.h:191-195 | A broadcast whose first byte is changed such that the root is not at a multiple of 4 is refused |
| `Accessors.OrderBroadcast.Items` | inventory/fbs/RobotMessages/OrderBroadcast.go:60-70 | Points the item object at element j and returns true, or leaves it and returns false when there is no vector; faults where a read is out of bounds |
| `Accessors.ReadItemsInTurn` | inventory/fbs/RobotMessages/OrderBroadcast.go:60-78 | For every buffer whose order can be read at all, broadcast or not: one item object, pointed at each element in turn, gives the items in their order and never reads out of bounds |
| `VerifiedReads.AcceptedIsRead` | robots/fbs/order_generated.h:40-49 | For every buffer, whoever made it: what the verifier accepts is read by the accessors without a fault, strings and items included, and it has as many items as the verifier counted |
| `VerifiedReads.VerifyAndRead` | robots/fbs/order_generated.h:191-195 | Verifying any bytes and reading the accepted: gives the items exactly when the bytes are sound and fewer than 1 000 000 items, and never faults |
| `Accessors.Item.MutateQuantity` | inventory/fbs/RobotMessages/Item.go:60-62 | Writes over the stored word and returns true, or returns false and changes nothing when no quantity is stored |
| `Mutate.QuantityApart` | inventory/fbs/RobotMessages/Item.go:60-62 | The word of one item's quantity is no part of any other item, of any vtable, shared or not, or of anything else in its own item |
| `Mutate.QuantityMutated` | inventory/fbs/RobotMessages/Item.go:60-62 | A quantity that is stored can be changed: the broadcast stays a written one of the same layout, with that item's quantity alone changed, vtables being shared or not; one that is not stored cannot |
| `Accessors.MutateItem` | inventory/fbs/RobotMessages/OrderBroadcast.go:60-70 | Item j reached through the accessors: done exactly when its quantity is stored, as sent when it was not 0, and then nothing else of the broadcast changes; it stays a written one, read accordingly, accepted as before, and can be changed again |
| `Robot.Pick` | robots/internal/bot/main.cpp:78-104 | From any broadcast in which nothing the loop dereferences is missing: the job has its id and type, the items of the robot's aisle with their quantities, a later one in place of an earlier one of the same name, and whether there was any |
| `Robot.ReportToInventory` | robots/internal/bot/main.cpp:114-127 | The report object, field by field: the job's id, type and items, and the bytes of SUCCESS if there was work and of NO_OP if not |
| `Robot.PickedItems` | robots/internal/bot/main.cpp:89-99 | Of any items read: a name is picked exactly if some item of the aisle has it, with the quantity of the last such item |
| `Robot.ReportFields` | robots/internal/bot/main.cpp:114-127 | What the report holds, field by field, the statuses as bytes |
| `Robot.PicksItsAisle` | robots/internal/bot/main.cpp:89-99 | Of a broadcast of a map, ranged over in any order, the robot picks just the items of its aisle, in the quantities ordered, and works exactly if there is one |
| `Robot.EveryItemReportedOnce` | robots/internal/bot/main.cpp:89-99 | With a robot in every aisle, each item is reported by one robot and in the quantity ordered |
| `Robot.ReportFits` | robots/internal/bot/main.cpp:114-131 | A report on a broadcast that could be sent is never above 2 GiB |
| `Robot.RunJob` | robots/internal/bot/main.cpp:78-131 | End to end: a map is sent as a broadcast, read and filtered by the robot, reported, and the report on the wire parses to the order's id in the first field, the bytes of SUCCESS in the second exactly if some item is in the robot's aisle and of NO_OP if not, just the items of that aisle in the quantities ordered in the third, and the order's type in the fourth, whatever order each map is walked in |

## Left out

- Reservation, robot completion, finalisation, pricing and ordering: their handler and store code is not part of this model.
- The gRPC stubs, the reflection-based `*.pb.go` files, the front ends, the analytics service, sockets and logging.
- Arenas, thread-sanitizer hooks, debug hardening, placement construction and memory-wise copies, which are modelled by what they do to the fields.
- Pointers handed out by `mutable_*` and used after a clear; the methods that hand out a string, list or map take the edit as a parameter or store one entry.
- Objects are required not to share sub-messages with the message they are merged with, which C++ ownership guarantees.
- `RepeatedPtrField::Clear` keeps cleared elements for reuse; here they are dropped and new ones made.
- UTF-8 checks, and the parser's limit on how deeply groups and messages nest.
- The accessors of name, aisle_type and expiry_date beyond those shown, and the string accessors of the other messages: they repeat those of sku and mfd_date under other has-bits.
- The remaining messages of `inventory.proto`, which have no field kind of their own.
- What a rejected input leaves in the object beyond a valid state.
- The parse table's dispatch on two-byte tags, since every field number is below 16, and the lookup table for numbers above 32, which is empty in all eight tables.
- FlatBuilder.Builder.Finish: without file identifiers and size prefixes, which the publisher does not use.
- FlatBuilder.Builder.EndObject: requires tables below 64 KiB, as vtable entries have 16 bits, and room below 1 GiB, where the Go builder refuses to grow; the object size it stores in a vtable is written but read by nobody.
- Publisher.SendRobotCommand: covers the payloads that leave four bytes below 1 GiB, which are those the Go builder has room for; beyond them it panics, which is not modelled.
- Sizes are unbounded numbers; the limit of 2 GiB that the code's signed sizes imply is checked once, where both passes are run.
- The verifier's options other than the defaults, and its minimum buffer size.
- Robot.Pick: requires that nothing the loop dereferences is missing, as the program checks nothing; waiting for messages, sleeping, logging and the call itself.
