# Verified models of the game server toolkit

This project models five parts of the repository and proves what they promise. Each part is written twice: as classes
and methods that work the way the original does, field by field and loop by loop, and as values and functions that say
what the result means; the methods are proved against the functions, and the laws are proved about the functions.

* **The schema messages of the database tool** (`Wire`, `Schema`, `MergeLaws`, `RoundTrip`, `OrderLaws`, `Sizes`,
  `Streams`, `Effects`, `Writers`, and one module for each of the classes `TableField`, `TableKey`, `MysqlTable`,
  `MysqlSchema`, `MysqlSchemaConf` and for each repeated field, and `WireForms`). `Schema.Parse`, `Schema.Encode` and `Schema.Merge` give
  the meaning of the wire format for all five message types; the generated parsers, the two serializers, the size
  computation with its cached sizes, merging, clearing, copying, swapping and the accessors are proved to have that
  meaning. `WireForms` ties that meaning to the bytes themselves, tag by tag. The library below them (varints, limits, the recursion budget, skipping unknown fields and groups, sizes,
  writing through a stream or in place) follows the copy of Protocol Buffers in the repository.
* **The router** (`Ordered`, `Instances`, `InstanceRuns`, `SeverInstanceMgrs`, `Transfers`, `TransferMgrs`,
  `RouterApplications`): the registry of instances with its shared groups, the routing policy, the reconciliation of
  transfer connections with a reloaded configuration, and the forwarding of packets, over whole runs.
* **The reference count of the exception library** (`Refcounts`).
* **The spreadsheet translator** (`Sheets`): when its two passes over the same headers agree.
* **The login cache** (`UserLoginMgrs`).

The code and its comments or the wider rules of the format disagree in places; the model follows the code:

* A nested message whose length reaches past the message that encloses it is not rejected but cut at the enclosing end
  (`MergeLaws.CutExample`), so concatenation is merging only under the condition of `MergeLaws.ConcatenationIsMergeExactly`.
* A parser stops with success at a zero tag; only the caller notices, by asking whether that was a legitimate end.
* An instance id of 1024 or more lands on the keys of another server type (`Instances.KeyCollision`).
* Reloading keeps a connection that only a line of another zone names (`Transfers.KeptByAnotherZone`), so that the places
  users' packets go to depend on the history (`Transfers.PlacesDependOnHistory`, `Transfers.SamePlacesExactly`); and it connects again
  on every reload to a port that does not fit 16 bits (`Transfers.NeverHeldExactly`).
* Logging out a connection that several instances hold takes only one of them offline (`InstanceRuns.LastLoginExactly`).
* The translator replaces its set of array names by a text at the first plain array (`Sheets.SeenOverColumns`).

## Model

| member | source | states |
|---|---|---|
| `RoundTrip.RoundTripExactly` | fk/dbtool/dbtool.pb.cc:2314-2373 | For a message of any of the five types no longer than 2 GB: parsing its serialized bytes into a cleared message gives the same message (presence, values, order, unknown fields, every level) if and only if the message is well formed (values fit their fields, every unknown field really is unrecognised, nesting within the recursion budget) |
| `RoundTrip.RoundTripAlone` | fk/dbtool/dbtool.pb.cc:1831-2014 | A well-formed tree comes back from its own bytes |
| `RoundTrip.RoundTripInto` | fk/dbtool/dbtool.pb.cc:484-732 | Parsing the bytes of a well-formed message into a message that already holds something merges the two, and whatever follows the bytes is parsed on top |
| `RoundTrip.ConcatenatedMessagesMerge` | fk/dbtool/dbtool.pb.cc:903-944 | The bytes of two well-formed messages, one after the other, parse to the first merged with the second |
| `RoundTrip.ParseWellFormed` | fk/dbtool/dbtool.pb.cc:484-656 | Whatever bytes are parsed, a successful parse leaves a well-formed message |
| `RoundTrip.ParseNormalises` | fk/dbtool/dbtool.pb.cc:484-732 | Any bytes that parse, parse to a message that its own serialized form (if no longer than 2 GB) parses back to: parsing and serializing is a normal form |
| `MergeLaws.ParseIsMerge` | fk/dbtool/dbtool.pb.cc:484-656 | Parsing into a message is merging into it what a parse into a cleared message gives, for all bytes, failures included |
| `MergeLaws.ParseConcat` | fk/dbtool/dbtool.pb.cc:1446-1512 | Parsing two byte strings in sequence is parsing their concatenation, when no record of the first is cut short |
| `MergeLaws.ConcatenationIsMergeExactly` | fk/google/protobuf/io/coded_stream.cc:115-161 | For bytes that parse: concatenation with every other byte string behaves as merging if and only if no nested length in them reaches past the end of what encloses it |
| `MergeLaws.CutExample` | fk/google/protobuf/io/coded_stream.cc:115-143 | A concrete over-long nested length: accepted alone, but it swallows what follows |
| `MergeLaws.EmptyMerge` | fk/dbtool/dbtool.pb.cc:953-958 | Merging into the cleared message gives exactly the other message: what makes copying exact |
| `OrderLaws.ParseByTarget` | fk/dbtool/dbtool.pb.cc:489-648 | The result of parsing a list of records and whatever follows them is determined, field by field, by the records of that field alone, and the unknown fields by the records that end up unknown |
| `OrderLaws.FieldOrderIndependence` | fk/dbtool/dbtool.pb.cc:1085-1153 | Reordering the records of a message without reordering those of one field, or those that end up unknown, does not change the parse, whatever follows them, a record that is cut short or does not parse included |
| `Wire.Varint64RoundTrip` | fk/google/protobuf/io/coded_stream.cc:520-566 | Every 64-bit value is read back from its varint, whatever follows |
| `WireForms.VarintGroups` | fk/google/protobuf/io/coded_stream.h:89-103 | Byte i of a varint holds the seven bits of weight 128 to the i, and every byte but the last has the high bit set |
| `WireForms.VarintReadExactly` | fk/google/protobuf/io/coded_stream.cc:520-566 | A varint is read if and only if one of the first ten bytes is without the high bit, and then its value is that of the seven bits of each byte up to the first such one, least significant first |
| `WireForms.TagRead` | fk/google/protobuf/io/coded_stream.cc:457-518 | A tag is the low 32 bits of its varint; there is none when those are zero |
| `Wire.VarintSizeIsLength` | fk/google/protobuf/io/coded_stream.h:1257-1275 | The multiply-and-shift formula is the length of the varint, for every 64-bit value |
| `Wire.BlockRoundTrip` | fk/google/protobuf/io/coded_stream.cc:239-276 | A length-delimited block of up to 2 GB is read back |
| `Wire.SkipFieldRoundTrip` | fk/google/protobuf/wire_format.cc:84-144 | An unknown field, groups included, that fits the recursion budget is skipped into exactly itself |
| `Wire.SkipMessageRoundTrip` | fk/google/protobuf/wire_format.cc:146-164 | So is the body of a group up to its end tag |
| `Wire.SkipFieldCanonical` | fk/google/protobuf/wire_format.cc:84-144 | Whatever is skipped can be written again and skipped again |
| `WireForms.UnknownBytes` | fk/google/protobuf/wire_format.cc:191-262 | An unknown field is its number times eight plus its wire type, then its varint, its 8 or 4 bytes, its length and bytes, or the fields of its group and the end tag; a list is one after the other |
| `WireForms.GroupDepthExactly` | fk/google/protobuf/wire_format.cc:112-126 | Groups within groups are accepted if and only if they are no more than the levels left of the recursion budget, at whatever message they occur |
| `WireForms.ColumnBytes` | fk/dbtool/dbtool.pb.cc:658-732 | The bytes of a column, written out: after each tag the length and bytes of a string, the varint of a number or an enum, 1 or 0 for a flag, for the fields present and in this order, then the unknown fields |
| `WireForms.ColumnSlots` | fk/dbtool/dbtool.pb.cc:658-732 | Which member of a column is which field, and that a flag stands for 1 or 0 |
| `WireForms.KeyBytes` | fk/dbtool/dbtool.pb.cc:1163-1201 | The bytes of a key, written out: name, type, one record for each field name |
| `WireForms.TableBytes` | fk/dbtool/dbtool.pb.cc:1514-1550 | The bytes of a table, written out: name, one length-prefixed record for each column and then for each key |
| `WireForms.SchemaBytes` | fk/dbtool/dbtool.pb.cc:1950-2014 | The bytes of a schema, written out: address, port, user, password, name, one record for each table |
| `WireForms.ConfBytes` | fk/dbtool/dbtool.pb.cc:2355-2373 | The bytes of a configuration, written out: one record for each schema |
| `WireForms.FieldTable` | fk/dbtool/dbtool.pb.cc:489-648 | The tags of the fields of the five messages and what each of them holds, an enum with how many values it has |
| `WireForms.FlagRecord` | fk/dbtool/dbtool.pb.cc:529-541 | On any message: a record of a flag sets it to 0 exactly for the varint 0 and to 1 for every other 64-bit value, whatever it was, and changes nothing else |
| `WireForms.ColumnFlagParsed` | fk/dbtool/dbtool.pb.cc:529-555 | In particular a column parsed from the tag 24, 32 or 80 and any varint has just that flag, 0 exactly for the varint 0 |
| `WireForms.NumberRecord` | fk/dbtool/dbtool.pb.cc:609-623 | A record of a number sets it to the low 32 bits of its varint |
| `WireForms.EnumRecord` | fk/dbtool/dbtool.pb.cc:509-527 | A record of an enum sets it to the low 32 bits of its varint if they name a value (1 to 12, or 1 to 3 for the type of a key); if not, they join the unknown fields, extended with their sign to 64 bits |
| `WireForms.TextRecord` | fk/google/protobuf/io/coded_stream.cc:239-276 | A record of a string sets it to as many bytes as the low 32 bits of the length say, and is refused exactly if they exceed an int or the bytes left |
| `WireForms.StringRecord` | fk/dbtool/dbtool.pb.cc:1127-1139 | A record of a repeated string appends it, under the same conditions |
| `WireForms.MessageRecord` | fk/google/protobuf/wire_format_lite_inl.h:441-452 | A nested message is parsed on its own from as many bytes as its length says or as are left, one level deeper, and appended; it is refused exactly if the length exceeds an int, no level is left or its own parse fails |
| `WireForms.EncodedIsWhole` | fk/dbtool/dbtool.pb.cc:658-732 | A scalar field by itself, and an unknown field by itself, is a whole record in the sense of the laws about reordering |
| `WireForms.AbsentMembers` | fk/dbtool/dbtool.pb.cc:404-482 | What members hold while absent, and in a new or cleared object: length 255, types 1, flags false, port 0 |
| `Schema.SlotOf` | fk/dbtool/dbtool.pb.cc:489-648 | The switch of each parser selects a field exactly when the tag is that field's |
| `Sizes.UnknownFieldsSizeAgrees` | fk/google/protobuf/wire_format.cc:322-368 | The size computed for the unknown fields is the number of bytes written for them |
| `Sizes.BlockSizeAgrees` | fk/google/protobuf/wire_format_lite_inl.h:1037-1044 | The size of a block is exact up to 2 GB and more than 2 GB beyond, although its length is cut to 32 bits |
| `Streams.CodedInputStream.ReadVarint64` | fk/google/protobuf/io/coded_stream.cc:520-566 | Reads byte by byte with wrap-around what the varint denotes modulo 2 to the 64, and fails exactly after ten bytes or at the limit |
| `Streams.CodedInputStream.ReadVarint32` | fk/google/protobuf/io/coded_stream.cc:401-429 | The low 32 bits of the varint |
| `Streams.CodedInputStream.ReadVarintSizeAsInt` | fk/google/protobuf/io/coded_stream.cc:431-455 | Fails exactly when the varint is bad or exceeds an int |
| `Streams.CodedInputStream.ReadTag` | fk/google/protobuf/io/coded_stream.cc:457-518 | Zero at the limit, at a zero tag and at a bad varint, a legitimate end only at the limit |
| `Streams.CodedInputStream.ReadString` | fk/google/protobuf/io/coded_stream.cc:239-276 | The next bytes; when they are not there, what was left is consumed and kept and the read fails |
| `Streams.CodedInputStream.ReadBytes` | fk/google/protobuf/io/coded_stream.cc:239-276 | A length-prefixed string |
| `Streams.CodedInputStream.EnterMessage` | fk/google/protobuf/io/coded_stream.cc:115-148 | Narrows the limit to the submessage, or to the enclosing limit if the length reaches past it; fails on a bad length or an exhausted recursion budget |
| `Streams.CodedInputStream.LeaveMessage` | fk/google/protobuf/io/coded_stream.cc:155-161 | Restores the limit, and succeeds exactly if parsing stopped at the end of the submessage |
| `Streams.CodedInputStream.SkipField` | fk/google/protobuf/wire_format.cc:84-144 | Appends the unknown field at the cursor, for every wire type |
| `Streams.CodedInputStream.SkipGroup` | fk/google/protobuf/wire_format.cc:112-126 | Skips a group whose end tag must match |
| `Streams.CodedInputStream.SkipMessage` | fk/google/protobuf/wire_format.cc:146-164 | Appends the unknown fields up to an end-group tag |
| `Writers.CodedOutputStream.WriteVarint` | fk/google/protobuf/io/coded_stream.h:1222-1246 | Appends the varint |
| `Writers.CodedOutputStream.WriteUnknownFields` | fk/google/protobuf/wire_format.cc:191-227 | Appends the bytes of the unknown fields |
| `Writers.WriteVarintToArray` | fk/google/protobuf/io/coded_stream.h:1158-1178 | Writes the varint in place and nothing else |
| `Writers.WriteUnknownFieldsToArray` | fk/google/protobuf/wire_format.cc:229-262 | Writes the unknown fields in place, the same bytes as the stream writer |
| `Writers.StringsSize` | fk/google/protobuf/wire_format_lite_inl.h:1008-1010 | The size added for a repeated string is the number of bytes written for it |
| `TableFields.TableField.constructor` | fk/dbtool/dbtool.pb.cc:404-415 | A new object is the cleared message, every member at its default |
| `TableFields.TableField.Clear` | fk/dbtool/dbtool.pb.cc:451-482 | Although guarded by presence bits, reaches exactly the default state, from any state that keeps the presence invariant |
| `TableFields.TableField.MergePartialFromCodedStream` | fk/dbtool/dbtool.pb.cc:484-656 | The parse loop stops for all bytes, succeeds at a legitimate end exactly when the bytes parse, leaves exactly the parsed value, and keeps the presence invariant even when it fails |
| `TableFields.TableField.SkipUnknown` | fk/dbtool/dbtool.pb.cc:484-656 | A record of no known field joins the unknown fields |
| `TableFields.TableField.ParseCase` | fk/dbtool/dbtool.pb.cc:484-656 | The switch handles exactly the known tags, each with the effect its record denotes |
| `TableFields.TableField.SerializeWithCachedSizes` | fk/dbtool/dbtool.pb.cc:658-732 | Appends exactly the encoding of the contents |
| `TableFields.TableField.InternalSerializeWithCachedSizesToArray` | fk/dbtool/dbtool.pb.cc:734-813 | Writes exactly the same bytes in place, touching no other byte |
| `TableFields.TableField.ByteSizeLong` | fk/dbtool/dbtool.pb.cc:815-886 | The size, added up in presence-mask order, is the number of bytes either serializer writes (beyond 2 GB: more than 2 GB); it is cached |
| `TableFields.TableField.MergeFrom` | fk/dbtool/dbtool.pb.cc:903-944 | The mask-guarded merge is the merge of the two values |
| `TableFields.TableField.CopyFrom` | fk/dbtool/dbtool.pb.cc:953-958 | An exact copy; an object copied onto itself is left alone |
| `TableFields.TableField.Swap` | fk/dbtool/dbtool.pb.cc:964-982 | Exchanges everything, cached sizes included |
| `TableKeys.TableKey.constructor` | fk/dbtool/dbtool.pb.cc:1023-1028 | A new object is the cleared message, every member at its default |
| `TableKeys.TableKey.Clear` | fk/dbtool/dbtool.pb.cc:1061-1078 | Although guarded by presence bits, reaches exactly the default state, from any state that keeps the presence invariant |
| `TableKeys.TableKey.MergePartialFromCodedStream` | fk/dbtool/dbtool.pb.cc:1080-1161 | The parse loop stops for all bytes, succeeds at a legitimate end exactly when the bytes parse, leaves exactly the parsed value, and keeps the presence invariant even when it fails |
| `TableKeys.TableKey.SkipUnknown` | fk/dbtool/dbtool.pb.cc:1080-1161 | A record of no known field joins the unknown fields |
| `TableKeys.TableKey.ParseCase` | fk/dbtool/dbtool.pb.cc:1080-1161 | The switch handles exactly the known tags, each with the effect its record denotes |
| `TableKeys.TableKey.SerializeWithCachedSizes` | fk/dbtool/dbtool.pb.cc:1163-1201 | Appends exactly the encoding of the contents |
| `TableKeys.TableKey.InternalSerializeWithCachedSizesToArray` | fk/dbtool/dbtool.pb.cc:1203-1244 | Writes exactly the same bytes in place, touching no other byte |
| `TableKeys.TableKey.ByteSizeLong` | fk/dbtool/dbtool.pb.cc:1246-1283 | The size, added up in presence-mask order, is the number of bytes either serializer writes (beyond 2 GB: more than 2 GB); it is cached |
| `TableKeys.TableKey.MergeFrom` | fk/dbtool/dbtool.pb.cc:1300-1319 | The mask-guarded merge is the merge of the two values |
| `TableKeys.TableKey.CopyFrom` | fk/dbtool/dbtool.pb.cc:1328-1333 | An exact copy; an object copied onto itself is left alone |
| `TableKeys.TableKey.Swap` | fk/dbtool/dbtool.pb.cc:1339-1351 | Exchanges everything, cached sizes included |
| `MysqlTables.MysqlTable.constructor` | fk/dbtool/dbtool.pb.cc:1392-1395 | A new object is the cleared message, every member at its default |
| `MysqlTables.MysqlTable.Clear` | fk/dbtool/dbtool.pb.cc:1429-1444 | Although guarded by presence bits, reaches exactly the default state, from any state that keeps the presence invariant |
| `MysqlTables.MysqlTable.MergePartialFromCodedStream` | fk/dbtool/dbtool.pb.cc:1446-1512 | The parse loop stops for all bytes, succeeds at a legitimate end exactly when the bytes parse, leaves exactly the parsed value, and keeps the presence invariant even when it fails |
| `MysqlTables.MysqlTable.SkipUnknown` | fk/dbtool/dbtool.pb.cc:1446-1512 | A record of no known field joins the unknown fields |
| `MysqlTables.MysqlTable.ParseCase` | fk/dbtool/dbtool.pb.cc:1446-1512 | The switch handles exactly the known tags, each with the effect its record denotes |
| `MysqlTables.MysqlTable.SerializeWithCachedSizes` | fk/dbtool/dbtool.pb.cc:1514-1550 | Appends exactly the encoding of the contents, given that every cached size below is right |
| `MysqlTables.MysqlTable.InternalSerializeWithCachedSizesToArray` | fk/dbtool/dbtool.pb.cc:1552-1593 | Writes exactly the same bytes in place, touching no other byte, given that every cached size below is right |
| `MysqlTables.MysqlTable.ByteSizeLong` | fk/dbtool/dbtool.pb.cc:1595-1638 | The size, added up in presence-mask order, is the number of bytes either serializer writes (beyond 2 GB: more than 2 GB); it is cached, and afterwards every message of the tree has its own size cached |
| `MysqlTables.MysqlTable.MergeFrom` | fk/dbtool/dbtool.pb.cc:1655-1668 | The merge guarded by the presence bit is the merge of the two values; the copies are new objects, so the trees stay apart |
| `MysqlTables.MysqlTable.CopyFrom` | fk/dbtool/dbtool.pb.cc:1677-1682 | An exact copy; an object copied onto itself is left alone |
| `MysqlTables.MysqlTable.Swap` | fk/dbtool/dbtool.pb.cc:1688-1700 | Exchanges everything, cached sizes included |
| `MysqlSchemas.MysqlSchema.constructor` | fk/dbtool/dbtool.pb.cc:1756-1763 | A new object is the cleared message, every member at its default |
| `MysqlSchemas.MysqlSchema.Clear` | fk/dbtool/dbtool.pb.cc:1800-1829 | Although guarded by presence bits, reaches exactly the default state, from any state that keeps the presence invariant |
| `MysqlSchemas.MysqlSchema.MergePartialFromCodedStream` | fk/dbtool/dbtool.pb.cc:1831-1948 | The parse loop stops for all bytes, succeeds at a legitimate end exactly when the bytes parse, leaves exactly the parsed value, and keeps the presence invariant even when it fails |
| `MysqlSchemas.MysqlSchema.SkipUnknown` | fk/dbtool/dbtool.pb.cc:1831-1948 | A record of no known field joins the unknown fields |
| `MysqlSchemas.MysqlSchema.ParseCase` | fk/dbtool/dbtool.pb.cc:1831-1948 | The switch handles exactly the known tags, each with the effect its record denotes |
| `MysqlSchemas.MysqlSchema.SerializeWithCachedSizes` | fk/dbtool/dbtool.pb.cc:1950-2014 | Appends exactly the encoding of the contents, given that every cached size below is right |
| `MysqlSchemas.MysqlSchema.InternalSerializeWithCachedSizesToArray` | fk/dbtool/dbtool.pb.cc:2016-2087 | Writes exactly the same bytes in place, touching no other byte, given that every cached size below is right |
| `MysqlSchemas.MysqlSchema.ByteSizeLong` | fk/dbtool/dbtool.pb.cc:2089-2151 | The size, added up in presence-mask order, is the number of bytes either serializer writes (beyond 2 GB: more than 2 GB); it is cached, and afterwards every message of the tree has its own size cached |
| `MysqlSchemas.MysqlSchema.MergeFrom` | fk/dbtool/dbtool.pb.cc:2168-2199 | The mask-guarded merge is the merge of the two values; the copies are new objects, so the trees stay apart |
| `MysqlSchemas.MysqlSchema.CopyFrom` | fk/dbtool/dbtool.pb.cc:2208-2213 | An exact copy; an object copied onto itself is left alone |
| `MysqlSchemas.MysqlSchema.Swap` | fk/dbtool/dbtool.pb.cc:2219-2234 | Exchanges everything, cached sizes included |
| `MysqlSchemaConfs.MysqlSchemaConf.constructor` | fk/dbtool/dbtool.pb.cc:2268-2270 | A new object is the cleared message, every member at its default |
| `MysqlSchemaConfs.MysqlSchemaConf.Clear` | fk/dbtool/dbtool.pb.cc:2303-2312 | The emptied list and unknown fields are the cleared message |
| `MysqlSchemaConfs.MysqlSchemaConf.MergePartialFromCodedStream` | fk/dbtool/dbtool.pb.cc:2314-2353 | The parse loop stops for all bytes, succeeds at a legitimate end exactly when the bytes parse, leaves exactly the parsed value, and keeps the presence invariant even when it fails |
| `MysqlSchemaConfs.MysqlSchemaConf.SerializeWithCachedSizes` | fk/dbtool/dbtool.pb.cc:2355-2373 | Appends exactly the encoding of the contents, given that every cached size below is right |
| `MysqlSchemaConfs.MysqlSchemaConf.InternalSerializeWithCachedSizesToArray` | fk/dbtool/dbtool.pb.cc:2375-2396 | Writes exactly the same bytes in place, touching no other byte, given that every cached size below is right |
| `MysqlSchemaConfs.MysqlSchemaConf.ByteSizeLong` | fk/dbtool/dbtool.pb.cc:2398-2423 | The size, added up in presence-mask order, is the number of bytes either serializer writes (beyond 2 GB: more than 2 GB); it is cached, and afterwards every message of the tree has its own size cached |
| `MysqlSchemaConfs.MysqlSchemaConf.MergeFrom` | fk/dbtool/dbtool.pb.cc:2440-2448 | Appending copies of the schemas and the unknown fields is the merge of the two values; the copies are new objects, so the trees stay apart |
| `MysqlSchemaConfs.MysqlSchemaConf.CopyFrom` | fk/dbtool/dbtool.pb.cc:2457-2462 | An exact copy; an object copied onto itself is left alone |
| `MysqlSchemaConfs.MysqlSchemaConf.Swap` | fk/dbtool/dbtool.pb.cc:2468-2478 | Exchanges everything, cached sizes included |
| `TableFields.TableField.SetName` | fk/dbtool/dbtool.pb.h:978-982 | Makes the field present with the value, keeps every other field and the presence invariant |
| `TableFields.TableField.ClearName` | fk/dbtool/dbtool.pb.h:970-973 | Makes the field absent and puts its default back |
| `TableFields.TableField.ReleaseName` | fk/dbtool/dbtool.pb.h:1008-1012 | Hands the string over and leaves the field absent at its default |
| `TableFields.TableField.SetFieldType` | fk/dbtool/dbtool.pb.h:1041-1046 | Makes the field present with the value, keeps every other field and the presence invariant |
| `TableFields.TableField.ClearFieldType` | fk/dbtool/dbtool.pb.h:1033-1036 | Makes the field absent and puts its default back |
| `TableFields.TableField.SetNotNull` | fk/dbtool/dbtool.pb.h:1066-1070 | Makes the field present with the value, keeps every other field and the presence invariant |
| `TableFields.TableField.ClearNotNull` | fk/dbtool/dbtool.pb.h:1058-1061 | Makes the field absent and puts its default back |
| `TableFields.TableField.SetAutoIncr` | fk/dbtool/dbtool.pb.h:1090-1094 | Makes the field present with the value, keeps every other field and the presence invariant |
| `TableFields.TableField.ClearAutoIncr` | fk/dbtool/dbtool.pb.h:1082-1085 | Makes the field absent and puts its default back |
| `TableFields.TableField.SetDefault` | fk/dbtool/dbtool.pb.h:1114-1118 | Makes the field present with the value, keeps every other field and the presence invariant |
| `TableFields.TableField.ClearDefault` | fk/dbtool/dbtool.pb.h:1106-1109 | Makes the field absent and puts its default back |
| `TableFields.TableField.ReleaseDefault` | fk/dbtool/dbtool.pb.h:1144-1148 | Hands the string over and leaves the field absent at its default |
| `TableFields.TableField.SetRenameFrom` | fk/dbtool/dbtool.pb.h:1177-1181 | Makes the field present with the value, keeps every other field and the presence invariant |
| `TableFields.TableField.ClearRenameFrom` | fk/dbtool/dbtool.pb.h:1169-1172 | Makes the field absent and puts its default back |
| `TableFields.TableField.ReleaseRenameFrom` | fk/dbtool/dbtool.pb.h:1207-1211 | Hands the string over and leaves the field absent at its default |
| `TableFields.TableField.SetModifyType` | fk/dbtool/dbtool.pb.h:1240-1245 | Makes the field present with the value, keeps every other field and the presence invariant |
| `TableFields.TableField.ClearModifyType` | fk/dbtool/dbtool.pb.h:1232-1235 | Makes the field absent and puts its default back |
| `TableFields.TableField.SetVarcharLen` | fk/dbtool/dbtool.pb.h:1265-1269 | Makes the field present with the value, keeps every other field and the presence invariant |
| `TableFields.TableField.ClearVarcharLen` | fk/dbtool/dbtool.pb.h:1257-1260 | Makes the field absent and puts its default back |
| `TableFields.TableField.SetIsDelete` | fk/dbtool/dbtool.pb.h:1289-1293 | Makes the field present with the value, keeps every other field and the presence invariant |
| `TableFields.TableField.ClearIsDelete` | fk/dbtool/dbtool.pb.h:1281-1284 | Makes the field absent and puts its default back |
| `TableKeys.TableKey.SetName` | fk/dbtool/dbtool.pb.h:1317-1321 | Makes the field present with the value, keeps every other field and the presence invariant |
| `TableKeys.TableKey.ClearName` | fk/dbtool/dbtool.pb.h:1309-1312 | Makes the field absent and puts its default back |
| `TableKeys.TableKey.ReleaseName` | fk/dbtool/dbtool.pb.h:1347-1351 | Hands the string over and leaves the field absent at its default |
| `TableKeys.TableKey.SetKeyType` | fk/dbtool/dbtool.pb.h:1380-1385 | Makes the field present with the value, keeps every other field and the presence invariant |
| `TableKeys.TableKey.ClearKeyType` | fk/dbtool/dbtool.pb.h:1372-1375 | Makes the field absent and puts its default back |
| `MysqlTables.MysqlTable.SetTableName` | fk/dbtool/dbtool.pb.h:1478-1482 | Makes the field present with the value, keeps every other field and the presence invariant |
| `MysqlTables.MysqlTable.ClearTableName` | fk/dbtool/dbtool.pb.h:1470-1473 | Makes the field absent and puts its default back |
| `MysqlTables.MysqlTable.ReleaseTableName` | fk/dbtool/dbtool.pb.h:1508-1512 | Hands the string over and leaves the field absent at its default |
| `MysqlSchemas.MysqlSchema.SetIp` | fk/dbtool/dbtool.pb.h:1605-1609 | Makes the field present with the value, keeps every other field and the presence invariant |
| `MysqlSchemas.MysqlSchema.ClearIp` | fk/dbtool/dbtool.pb.h:1597-1600 | Makes the field absent and puts its default back |
| `MysqlSchemas.MysqlSchema.ReleaseIp` | fk/dbtool/dbtool.pb.h:1635-1639 | Hands the string over and leaves the field absent at its default |
| `MysqlSchemas.MysqlSchema.SetPort` | fk/dbtool/dbtool.pb.h:1668-1672 | Makes the field present with the value, keeps every other field and the presence invariant |
| `MysqlSchemas.MysqlSchema.ClearPort` | fk/dbtool/dbtool.pb.h:1660-1663 | Makes the field absent and puts its default back |
| `MysqlSchemas.MysqlSchema.SetUser` | fk/dbtool/dbtool.pb.h:1692-1696 | Makes the field present with the value, keeps every other field and the presence invariant |
| `MysqlSchemas.MysqlSchema.ClearUser` | fk/dbtool/dbtool.pb.h:1684-1687 | Makes the field absent and puts its default back |
| `MysqlSchemas.MysqlSchema.ReleaseUser` | fk/dbtool/dbtool.pb.h:1722-1726 | Hands the string over and leaves the field absent at its default |
| `MysqlSchemas.MysqlSchema.SetPasswd` | fk/dbtool/dbtool.pb.h:1755-1759 | Makes the field present with the value, keeps every other field and the presence invariant |
| `MysqlSchemas.MysqlSchema.ClearPasswd` | fk/dbtool/dbtool.pb.h:1747-1750 | Makes the field absent and puts its default back |
| `MysqlSchemas.MysqlSchema.ReleasePasswd` | fk/dbtool/dbtool.pb.h:1785-1789 | Hands the string over and leaves the field absent at its default |
| `MysqlSchemas.MysqlSchema.SetSchemaName` | fk/dbtool/dbtool.pb.h:1818-1822 | Makes the field present with the value, keeps every other field and the presence invariant |
| `MysqlSchemas.MysqlSchema.ClearSchemaName` | fk/dbtool/dbtool.pb.h:1810-1813 | Makes the field absent and puts its default back |
| `MysqlSchemas.MysqlSchema.ReleaseSchemaName` | fk/dbtool/dbtool.pb.h:1848-1852 | Hands the string over and leaves the field absent at its default |
| `TableKeys.TableKey.AddField` | fk/dbtool/dbtool.pb.h:1422-1425 | Appends one field name |
| `TableFields.MergeDataMerges` | fk/dbtool/dbtool.pb.cc:903-944 | Merging members is merging the values they stand for, and keeps the presence invariant |
| `TableFields.GuardedMergeIsMerge` | fk/dbtool/dbtool.pb.cc:910-943 | Testing the masks first changes nothing |
| `TableKeys.GuardedMergeIsMerge` | fk/dbtool/dbtool.pb.cc:1311-1318 | Testing the mask first changes nothing: a key that has none of its bits leaves the members of the other as they are |
| `TableFields.GuardedClearIsDefault` | fk/dbtool/dbtool.pb.cc:451-482 | Clearing only what the masks point at reaches the default state because absent members hold their defaults |
| `TableFields.DataSizeAgrees` | fk/dbtool/dbtool.pb.cc:815-886 | Sizes added up by presence bit equal the length of the encoding by field number |
| `TableFieldLists.SizeAll` | fk/dbtool/dbtool.pb.cc:1595-1638 | The column part of the size is right, and afterwards each column has its own size cached |
| `TableFieldLists.WriteMessage` | fk/google/protobuf/wire_format_lite.cc:573-587 | One nested message: the length prefix written from the cache is the length of the bytes that follow, in place or through the stream |
| `TableFieldLists.WriteAll` | fk/dbtool/dbtool.pb.cc:1514-1550 | All column records, in order |
| `TableFieldLists.WriteMessageToArray` | fk/google/protobuf/wire_format_lite_inl.h:951-958 | The same bytes in place |
| `TableFieldLists.WriteAllToArray` | fk/dbtool/dbtool.pb.cc:1552-1593 | All column records in place |
| `TableFieldLists.CopyAll` | fk/dbtool/dbtool.pb.cc:1655-1668 | New objects with the same values, apart from the old ones and from each other |
| `TableFieldLists.ReadItem` | fk/google/protobuf/wire_format_lite_inl.h:441-452 | Reads one length-prefixed message: succeeds exactly when the length, the nesting and the content are good, and restores the enclosing limit |
| `TableKeyLists.SizeAll` | fk/dbtool/dbtool.pb.cc:1595-1638 | The key part of the size is right, and afterwards each key has its own size cached |
| `TableKeyLists.WriteMessage` | fk/google/protobuf/wire_format_lite.cc:573-587 | One nested message: the length prefix written from the cache is the length of the bytes that follow, in place or through the stream |
| `TableKeyLists.WriteAll` | fk/dbtool/dbtool.pb.cc:1514-1550 | All key records, in order |
| `TableKeyLists.WriteMessageToArray` | fk/google/protobuf/wire_format_lite_inl.h:951-958 | The same bytes in place |
| `TableKeyLists.WriteAllToArray` | fk/dbtool/dbtool.pb.cc:1552-1593 | All key records in place |
| `TableKeyLists.CopyAll` | fk/dbtool/dbtool.pb.cc:1655-1668 | New objects with the same values, apart from the old ones and from each other |
| `TableKeyLists.ReadItem` | fk/google/protobuf/wire_format_lite_inl.h:441-452 | Reads one length-prefixed message: succeeds exactly when the length, the nesting and the content are good, and restores the enclosing limit |
| `MysqlTableLists.SizeAll` | fk/dbtool/dbtool.pb.cc:2089-2151 | The table part of the size is right, and afterwards each table has its own size cached |
| `MysqlTableLists.WriteMessage` | fk/google/protobuf/wire_format_lite.cc:573-587 | One nested message: the length prefix written from the cache is the length of the bytes that follow, in place or through the stream |
| `MysqlTableLists.WriteAll` | fk/dbtool/dbtool.pb.cc:1950-2014 | All table records, in order |
| `MysqlTableLists.WriteMessageToArray` | fk/google/protobuf/wire_format_lite_inl.h:951-958 | The same bytes in place |
| `MysqlTableLists.WriteAllToArray` | fk/dbtool/dbtool.pb.cc:2016-2087 | All table records in place |
| `MysqlTableLists.CopyAll` | fk/dbtool/dbtool.pb.cc:2168-2199 | New objects with the same values, apart from the old ones and from each other |
| `MysqlTableLists.ReadItem` | fk/google/protobuf/wire_format_lite_inl.h:441-452 | Reads one length-prefixed message: succeeds exactly when the length, the nesting and the content are good, and restores the enclosing limit |
| `MysqlSchemaLists.SizeAll` | fk/dbtool/dbtool.pb.cc:2398-2423 | The schema part of the size is right, and afterwards each schema has its own size cached |
| `MysqlSchemaLists.WriteMessage` | fk/google/protobuf/wire_format_lite.cc:573-587 | One nested message: the length prefix written from the cache is the length of the bytes that follow, in place or through the stream |
| `MysqlSchemaLists.WriteAll` | fk/dbtool/dbtool.pb.cc:2355-2373 | All schema records, in order |
| `MysqlSchemaLists.WriteMessageToArray` | fk/google/protobuf/wire_format_lite_inl.h:951-958 | The same bytes in place |
| `MysqlSchemaLists.WriteAllToArray` | fk/dbtool/dbtool.pb.cc:2375-2396 | All schema records in place |
| `MysqlSchemaLists.CopyAll` | fk/dbtool/dbtool.pb.cc:2440-2448 | New objects with the same values, apart from the old ones and from each other |
| `MysqlSchemaLists.ReadItem` | fk/google/protobuf/wire_format_lite_inl.h:441-452 | Reads one length-prefixed message: succeeds exactly when the length, the nesting and the content are good, and restores the enclosing limit |
| `TableFieldLists.SizeThenSetName` | fk/dbtool/dbtool.pb.h:978-982 | When a name is set after the size was computed, the cached size is still right if and only if a name of the same length was present before |
| `Effects.SameSizeExactly` | fk/dbtool/dbtool.pb.cc:815-886 | For a message of any type: replacing one field keeps the size if and only if the field keeps its own |
| `MysqlSchemaConfs.MysqlSchemaConf.ParseFromArray` | fk/google/protobuf/message_lite.cc:127-151 | Parses a whole buffer: succeeds exactly when it parses, and then holds exactly the parsed value |
| `MysqlSchemaConfs.MysqlSchemaConf.AppendPartialToString` | fk/google/protobuf/message_lite.cc:280-301 | Fails exactly when the message is longer than 2 GB, otherwise appends exactly its encoding; the bytes produced are as many as were counted |
| `MysqlSchemaConfs.MysqlSchemaConf.SerializePartialToCodedStream` | fk/google/protobuf/message_lite.cc:235-266 | The same through a stream, whichever way the buffer allows |
| `MysqlSchemaConfs.CopyThroughBytes` | fk/dbtool/dbtool.pb.cc:2314-2423 | Serializing one object tree and parsing into another copies it if and only if the tree is well formed |
| `MysqlSchemaConfs.MergeThroughBytes` | fk/dbtool/dbtool.pb.cc:2440-2448 | Parsing the bytes of two object trees in sequence gives what merging them gives |
| `Instances.CalcTypeIdInjective` | fk/routersvr/server_instance_info.h:27-29 | Server types below 2 to the 21 and ids 0 to 1023 can be read back from the combined key |
| `Integers.Int32Exactly` | fk/routersvr/server_instance_info.h:27-29 | The key is the one 32-bit value that differs from what the shift and the sum give by a multiple of 2 to the 32 |
| `Instances.SameKeyExactly` | fk/routersvr/server_instance_info.h:27-29 | Exactly which addresses share a key |
| `Instances.KeyCollision` | fk/routersvr/server_instance_info.h:27-29 | Instance 1024 of a type has the key of the next type's basic entry |
| `Instances.AddressedInstance` | fk/routersvr/server_instance_mgr.cpp:82-92 | Whoever is reached is a registered instance, and the one addressed exactly when type and id fit the combined key |
| `Instances.LoginKeepsInvExactly` | fk/routersvr/server_instance_mgr.cpp:17-65 | An accepted login keeps the registry invariant if and only if its type has a basic entry already or fits the combined key, and its key is that of an instance already filed or its id fits |
| `Instances.LoginKeepsInv` | fk/routersvr/server_instance_mgr.cpp:17-65 | A login that fits the combined key keeps the registry invariant: a basic entry for each seen type, one shared group a type, the group's set exactly the registered ids |
| `Instances.LogoutKeepsInv` | fk/routersvr/server_instance_mgr.cpp:67-80 | So does a logout |
| `Instances.FindPolicyExactly` | fk/routersvr/server_instance_mgr.cpp:138-151 | A policy is found if and only if some line is for the type, and it is that of the first such line |
| `Instances.AcceptsExactly` | fk/routersvr/server_instance_mgr.cpp:17-22 | A login is accepted if and only if its id is not zero and some line configures its type |
| `SeverInstanceMgrs.SeverInstanceMgr.Init` | fk/routersvr/server_instance_mgr.cpp:8-15 | Takes a configuration, or refuses none |
| `SeverInstanceMgrs.SeverInstanceMgr.GetPolicy` | fk/routersvr/server_instance_mgr.cpp:138-151 | The policy of the first line for the type; none exactly if no line is for it |
| `SeverInstanceMgrs.SeverInstanceMgr.LoginInstance` | fk/routersvr/server_instance_mgr.cpp:17-65 | On objects that share mutable groups: makes the basic entry, files or overwrites the record, adds the id to the shared set; refused exactly if no line configures the type or the id is 0 |
| `SeverInstanceMgrs.SeverInstanceMgr.LogoutInstance` | fk/routersvr/server_instance_mgr.cpp:67-80 | Takes offline some record that holds the connection; nothing for connection 0 or one nobody holds |
| `SeverInstanceMgrs.SeverInstanceMgr.GetFdByTypeId` | fk/routersvr/server_instance_mgr.cpp:82-92 | The connection filed under the key, or 0 |
| `SeverInstanceMgrs.SeverInstanceMgr.RouterPolicy` | fk/routersvr/server_instance_mgr.cpp:94-136 | The ids of the shared set in order, chosen by the policy of the group; a broadcast replaces the vector the caller passes, any other choice is added at its end, and without targets the vector stays |
| `Ordered.SortedUnique` | fk/routersvr/server_instance_mgr.cpp:104-107 | Visiting a set in order gives the one increasing sequence of its elements |
| `InstanceRuns.InvOverRunsExactly` | fk/routersvr/server_instance_mgr.cpp:17-80 | The registry invariant holds all along a run if and only if every accepted login meets this condition at its moment |
| `InstanceRuns.InvOverRuns` | fk/routersvr/server_instance_mgr.cpp:17-80 | In particular all along every run of logins, logouts and configuration changes whose accepted logins fit the combined key |
| `InstanceRuns.DistinctExactly` | fk/routersvr/server_instance_mgr.cpp:59-80 | No two entries ever hold the same connection if and only if a connection is only logged in while no other instance holds it |
| `InstanceRuns.ConnectionIsLastLogin` | fk/routersvr/server_instance_mgr.cpp:59-92 | After any run in which no connection is logged out while several instances hold it, an instance has connection f exactly when its last accepted login used f and f was not logged out since; so logging out a superseded connection never takes an instance offline |
| `InstanceRuns.LastLoginExactly` | fk/routersvr/server_instance_mgr.cpp:59-92 | A run obeys this rule, at every moment and for every instance, if and only if it never logs out a connection that several instances hold at that moment |
| `InstanceRuns.SharedLogoutBreaks` | fk/routersvr/server_instance_mgr.cpp:67-80 | Whenever such a connection is logged out, some instance keeps it although it was logged out |
| `InstanceRuns.GroupIsHistory` | fk/routersvr/server_instance_mgr.cpp:24-57 | The ids of a type's group are exactly those that ever logged in |
| `InstanceRuns.PolicyIsCaptured` | fk/routersvr/server_instance_mgr.cpp:27-42 | The policy in force is the one configured at the type's first login, whatever the configuration became later |
| `InstanceRuns.CapturedIsConfigured` | fk/routersvr/server_instance_mgr.cpp:27-42 | It is the policy of the first line for the type in the configuration at that moment |
| `InstanceRuns.ConfigIsLatest` | fk/routersvr/server_instance_mgr.cpp:8-15 | The configuration in force is the one last given |
| `InstanceRuns.NoConfigYet` | fk/routersvr/server_instance_mgr.cpp:4-6 | Before the first there is none |
| `InstanceRuns.RefusedChangesNothing` | fk/routersvr/server_instance_mgr.cpp:17-22 | A login with id 0 or of a type that is not configured at that moment changes nothing |
| `InstanceRuns.OnlineOverRuns` | fk/routersvr/server_instance_mgr.cpp:43-80 | Over every run whoever has a connection is online; and whoever is online has one, unless an instance logged in with connection 0 |
| `InstanceRuns.TargetsAreSticky` | fk/routersvr/server_instance_mgr.cpp:94-136 | Between two moments with no first login of a new id, no logout, login or configuration change moves any user of the type |
| `InstanceRuns.TargetsExactly` | fk/routersvr/server_instance_mgr.cpp:94-136 | With the broadcast flag or the policy BROADCAST the targets are exactly the registered ids of the type, in order; under RANDOM the smallest; under ROUTER and anything that is not a policy there are none |
| `InstanceRuns.TargetsOverRuns` | fk/routersvr/server_instance_mgr.cpp:94-136 | Over every run, for all policies: by the line that configured the type at its first login and the ids that ever logged in |
| `InstanceRuns.NoTargetsYet` | fk/routersvr/server_instance_mgr.cpp:97-103 | Before the first login of a type there are no targets |
| `InstanceRuns.ReplacesExactly` | fk/routersvr/server_instance_mgr.cpp:113-134 | A vector that the caller has filled is replaced exactly by a broadcast, by flag or by policy |
| `InstanceRuns.ModTarget` | fk/routersvr/server_instance_mgr.cpp:126-130 | Under the MOD policy the target is the registered id with exactly (uid mod n) smaller ones |
| `InstanceRuns.ModTargetOverRuns` | fk/routersvr/server_instance_mgr.cpp:24-136 | After any run in which the policy configured at the first login of the type was MOD, the target is the id that, of the n ids of the type that ever logged in, has exactly (uid mod n) smaller ones |
| `TransferMgrs.TransferMgr.constructor` | fk/routersvr/transfer_mgr.cpp:7-11 | No connections |
| `TransferMgrs.TransferMgr.Init` | fk/routersvr/transfer_mgr.cpp:13-27 | Keeps the identity, the zone and the file, and reloads |
| `TransferMgrs.TransferMgr.Reload` | fk/routersvr/transfer_mgr.cpp:29-60 | Nothing without a file; refused without any change when parsing fails or an id of the zone is duplicated; otherwise reconciles |
| `TransferMgrs.TransferMgr.ConnectTransfers` | fk/routersvr/transfer_mgr.cpp:156-204 | The loops over map and vectors leave the reconciled connections and log exactly the connections opened and closed, in order |
| `TransferMgrs.TransferMgr.ExistTransfer` | fk/routersvr/transfer_mgr.cpp:80-91 | Whether a connection with the triple is held |
| `TransferMgrs.TransferMgr.LoginTransfer` | fk/routersvr/transfer_mgr.cpp:93-107 | Gives the connection to the first entry with the triple |
| `TransferMgrs.TransferMgr.GetTransferInstId` | fk/routersvr/transfer_mgr.cpp:109-117 | The connection at the user's place, or none |
| `Transfers.SameServerExactly` | fk/routersvr/transfer_mgr.cpp:80-91 | Servers are the same if and only if address, port and id are |
| `Transfers.ConfiguredExactly` | fk/routersvr/transfer_mgr.cpp:156-204 | A reload leaves exactly the triples the zone's lines name if and only if their ports fit 16 bits and no line of another zone names a held triple that the zone's own lines do not |
| `Transfers.ReconciledExactly` | fk/routersvr/transfer_mgr.cpp:156-204 | Then the entries left are sorted by id, survivors keep their connection and new ones start without |
| `Transfers.OpenedExactly` | fk/routersvr/transfer_mgr.cpp:165-175 | Whatever is held, a connection is opened for exactly the triples the zone's lines name that are not held |
| `Transfers.ConnectsOnce` | fk/routersvr/transfer_mgr.cpp:159-176 | Each opened connection has its own id, so each is opened once |
| `Transfers.ClosedExactly` | fk/routersvr/transfer_mgr.cpp:179-196 | Of the entries that have a connection exactly those not left are closed, and of all entries when the ports of the zone fit 16 bits |
| `Transfers.KeepsOpenExactly` | fk/routersvr/transfer_mgr.cpp:156-204 | A reload closes no connection of an entry that is left if and only if no two entries share a connection of which the configuration names one but not the other |
| `Transfers.KeepsOpenOverRuns` | fk/routersvr/transfer_mgr.cpp:93-204 | Over every run of reloads and logins no reload closes a connection it leaves if and only if none splits a shared one so; and none does when no login brings a connection that another entry holds |
| `Transfers.ApartExactly` | fk/routersvr/transfer_mgr.cpp:93-107 | Over every run of reloads and logins, entries never share a connection if and only if a login never brings a connection that another entry holds |
| `Transfers.KeptByAnotherZone` | fk/routersvr/transfer_mgr.cpp:181-192 | A line of another zone can keep a connection the zone has dropped |
| `Transfers.NeverHeldExactly` | fk/routersvr/transfer_mgr.cpp:165-175 | A reload connects to a line of the zone whatever is held if and only if its port, negative ones included, does not fit 16 bits |
| `Transfers.HeldExactly` | fk/routersvr/transfer_mgr.cpp:156-204 | A line of the zone is held after a reload if and only if its port fits and no entry that stays has its id with another triple |
| `Transfers.IdempotentExactly` | fk/routersvr/transfer_mgr.cpp:156-204 | Repeating a reload opens nothing, closes nothing and changes nothing if and only if every line of the zone has a port that fits and an id that no entry that stays has with another triple |
| `Transfers.ReopenedExactly` | fk/routersvr/transfer_mgr.cpp:165-175 | A line is connected to again by the repeated reload exactly when it fails this condition |
| `Transfers.ReloadIgnoresOrder` | fk/routersvr/transfer_mgr.cpp:156-204 | Permuting the configuration gives the same connections, whatever is held and whatever the lines say |
| `Transfers.SortedOverRuns` | fk/routersvr/transfer_mgr.cpp:93-107 | Over every run of reloads and logins the ids are strictly increasing |
| `Transfers.LoginIsLocal` | fk/routersvr/transfer_mgr.cpp:93-107 | So a login changes the connection of the one entry with its triple and nothing else |
| `Transfers.LeftExactly` | fk/routersvr/transfer_mgr.cpp:156-204 | A reload leaves the triples that are held and named by some line but that no line of the zone stands for (the stray ones), and of the triples the zone's lines stand for those whose id no stray one has |
| `Transfers.SamePlacesExactly` | fk/routersvr/transfer_mgr.cpp:109-204 | Whatever two vectors are held, reloading the same lines leaves the same triples, place by place, if and only if the same triples are stray |
| `Transfers.PlacesAsFromNothing` | fk/routersvr/transfer_mgr.cpp:109-204 | A reload leaves the places it would leave from nothing if and only if every held triple that some line names is one that a line of the zone stands for |
| `Transfers.PlacesDependOnHistory` | fk/routersvr/transfer_mgr.cpp:181-192 | A line of another zone can make the places depend on what was held |
| `Transfers.PlacesDependOnConfiguration` | fk/routersvr/transfer_mgr.cpp:109-204 | After reloads of the same lines in any order, over any two histories and whoever has logged in since, the places that users' packets go to are the same if and only if the same triples were stray at the reload |
| `RouterApplications.RouterApplication.OnProc` | fk/routersvr/router_svr.cpp:87-119 | Sends, for each packet, exactly what the forwarding rule says, the header and payload unchanged |
| `RouterApplications.RouterApplication.ForwardPkg` | fk/routersvr/router_svr.cpp:121-129 | One send to the instance's connection if it has one |
| `RouterApplications.RouterApplication.ForwarPkgToTransfer` | fk/routersvr/router_svr.cpp:131-145 | One send to the user's transfer connection, or none |
| `RouterApplications.RouterApplication.ForwardToTargets` | fk/routersvr/router_svr.cpp:105-112 | One send for each target that is connected, in order |
| `RouterApplications.ToType` | fk/routersvr/router_svr.cpp:105-112 | A packet for a type goes to exactly the connections of the policy's targets that are connected, to each as often as targets have it, and so to none twice if and only if those differ |
| `RouterApplications.SentOnceExactly` | fk/routersvr/router_svr.cpp:105-112 | Sending to a list of instances reaches no connection twice if and only if those that are connected have different connections |
| `RouterApplications.OutOfZone` | fk/routersvr/router_svr.cpp:114-117 | A packet for another zone goes to the transfer connection at the place uid mod n, or nowhere if there is none, never to an instance |
| `RouterApplications.ToUsersServer` | fk/routersvr/transfer_mgr.cpp:109-117 | Of the n transfer servers held, it goes to the one that has exactly uid mod n of smaller id |
| `RouterApplications.SameServerOverRuns` | fk/routersvr/transfer_mgr.cpp:93-204 | After reloads of the same lines over any two histories that leave the same triples stray, whoever has logged in since, a user's packets go to the same server, the one with uid mod n of smaller id |
| `RouterApplications.ControlSendsNothing` | fk/routersvr/router_svr.cpp:88-95 | The five commands between servers are never forwarded |
| `RouterApplications.ControlExactly` | fk/routersvr/router_svr.cpp:88-99 | And only those five |
| `RouterApplications.DeliveredToLastLogin` | fk/routersvr/router_svr.cpp:87-129 | After any run in which no connection is logged out while several instances hold it, a packet for an instance goes to connection f exactly when the instance's last login used f and f was not logged out since |
| `RouterApplications.DeliveredToTargets` | fk/routersvr/router_svr.cpp:87-129 | After any such run, a packet for a type reaches exactly the targets whose last login still stands |
| `RouterApplications.BroadcastReaches` | fk/routersvr/router_svr.cpp:105-112 | After any such run a packet that is broadcast, by its header or by the policy captured, goes to exactly the instances of the type whose last login still stands |
| `RouterApplications.DeliveredOnce` | fk/routersvr/router_svr.cpp:105-112 | After any run that logs in a connection only while no other instance holds it, a packet for a type reaches no connection twice |
| `Refcounts.World.CountIsHandles` | fk/boost/exception/info.hpp:135-151 | The count of a container that has not been deleted is the number of handles that point at it |
| `Refcounts.RefcountPtr.constructor` | fk/boost/exception/exception.hpp:35-38 | A handle to nothing |
| `Refcounts.RefcountPtr.Copy` | fk/boost/exception/exception.hpp:45-49 | A copied handle shares the container, whose count grows by one |
| `Refcounts.RefcountPtr.Adopt` | fk/boost/exception/exception.hpp:58-64 | Lets go of one container, deleting it exactly if this was its last handle, and takes another |
| `Refcounts.RefcountPtr.Assign` | fk/boost/exception/exception.hpp:51-56 | Keeps the counting invariant; a sole owner must not be assigned to itself |
| `Refcounts.RefcountPtr.Release` | fk/boost/exception/exception.hpp:83-88 | Deletes exactly when the last handle lets go |
| `Refcounts.RefcountPtr.Destroy` | fk/boost/exception/exception.hpp:40-43 | One handle less |
| `Refcounts.ErrorInfoContainer.Set` | fk/boost/exception/info.hpp:83-89 | Replaces one entry and drops the cached text |
| `Refcounts.ErrorInfoContainer.Clone` | fk/boost/exception/info.hpp:153-161 | A handle to a new container with the same entries and a count of one |
| `Refcounts.Exception.SetInfo` | fk/boost/exception/info.hpp:164-176 | Makes a container on first use, then sets the entry |
| `Refcounts.CopyBoostException` | fk/boost/exception/exception.hpp:438-449 | The copy has the same information and a container of its own |
| `Refcounts.SetAfterCopy` | fk/boost/exception/exception.hpp:438-449 | After a copy, what is set on one side never shows on the other |
| `Sheets.PassesAgreeExactly` | fk/excel/xls_translator.py:112-156 | The schema pass gets through and declares every name and rule the data pass uses if and only if no in-scope name has an equals sign after its start, and every indexed array after a plain one is part of the last plain name and declared elsewhere |
| `Sheets.PlainSheetsAgree` | fk/excel/xls_translator.py:335-393 | In particular without equals signs and without indexed arrays after plain ones |
| `Sheets.SeenOverColumns` | fk/excel/xls_translator.py:125-134 | Exactly when the schema pass crashes, and what it remembers until then |
| `Sheets.NumbersHaveNoGaps` | fk/excel/xls_translator.py:244-248 | Declared numbers are 1 to k |
| `Sheets.RowIsParsed` | fk/excel/xls_translator.py:335-393 | When the passes agree, a row is parsed if and only if no two columns introduce the same name and no array cell is empty, and each array then holds one element for each of its columns in order, and a single field is set exactly if some column gives it a value, to that of the last such column |
| `Sheets.ColumnValuesAre` | fk/excel/xls_translator.py:382-388 | The k-th element of an array is that of the column with exactly k columns of the array before it |
| `Sheets.HeaderCells` | fk/excel/xls_translator.py:115-145 | What the header cells mean: the scopes all and server, rules that begin with array, names with an index |
| `Sheets.LineOfColumn` | fk/excel/xls_translator.py:112-234 | The type and the default of the line a column declares, from its header cells: element types of arrays, times by name as 64-bit numbers without sign, 0 for numbers, the empty text for texts |
| `Sheets.LineWithDefault` | fk/excel/xls_translator.py:196-202 | A name with an equals sign after its start declares what stands before it, with what stands after it as the default, blanks at the ends taken away |
| `Sheets.IntroducesExactly` | fk/excel/xls_translator.py:112-145 | A column introduces a line if and only if it is in scope and is not an array with an index after an array in scope that has no index, or has one and the same name |
| `Sheets.GrowsExactly` | fk/excel/xls_translator.py:112-156 | A column adds just that line, with the next number, exactly when it introduces one |
| `Sheets.ContainsExactly` | fk/excel/xls_translator.py:130-131 | When a name counts as seen after a plain array: it is part of the last plain name |
| `Sheets.NamesDistinctExactly` | fk/excel/xls_translator.py:112-234 | The schema declares no name twice if and only if no two columns introduce the same one |
| `Sheets.SheetInterpreter.Interpreted` | fk/excel/xls_translator.py:92-93 | The loop over the columns computes the schema, or crashes |
| `Sheets.SheetInterpreter.FieldDefine` | fk/excel/xls_translator.py:112-156 | One column |
| `Sheets.SheetInterpreter.LayoutOneField` | fk/excel/xls_translator.py:192-234 | Declares a field under its name, with what follows an equals sign as its default and otherwise the default of its type, a time as a 64-bit number |
| `Sheets.SheetInterpreter.GetAndAddFieldIndex` | fk/excel/xls_translator.py:244-248 | The next number, counted up |
| `Sheets.DataParser.ParseLine` | fk/excel/xls_translator.py:335-340 | One row |
| `Sheets.DataParser.ParseField` | fk/excel/xls_translator.py:342-393 | One cell |
| `UserLoginMgrs.ZoneIsLatest` | fk/transfersvr/user_login_mgr.cpp:4-51 | Over every run the zone of a user is that of the latest update unless a tick found the record more than 30 seconds old |
| `UserLoginMgrs.NeverUpdated` | fk/transfersvr/user_login_mgr.cpp:25-32 | A user never updated has no record |
| `UserLoginMgrs.UserLoginMgr.UpdateLoginInfo` | fk/transfersvr/user_login_mgr.cpp:34-51 | Records the login in both indices and returns the zone before, or 0 |
| `UserLoginMgrs.UserLoginMgr.GetLoginZone` | fk/transfersvr/user_login_mgr.cpp:25-32 | The recorded zone, or 0 |
| `UserLoginMgrs.UserLoginMgr.Tick` | fk/transfersvr/user_login_mgr.cpp:4-23 | Drops only expired records, from both indices |
| `UserLoginMgrs.UserLoginMgr.Insert` | fk/transfersvr/user_login_mgr.h:20-31 | Files a record in both indices, which keep holding the same records, one a user, sorted by time |
| `UserLoginMgrs.UserLoginMgr.Erase` | fk/transfersvr/user_login_mgr.h:20-31 | Takes a record out of both indices |

## Left out

- MysqlSchemaConfs.MysqlSchemaConf.ParseFromArray: takes at most 2 GB, which is what the `int` size of the original can say.
- SeverInstanceMgrs.SeverInstanceMgr.LogoutInstance: which of several records with the same connection the index finds is left open.
- UserLoginMgrs.UserLoginMgr.Tick: which of the expired records a pass removes is left open, because the loop of the original advances its iterator twice; the model removes some subset.
- RouterApplications.RouterApplication.OnProc: what transactions do with control packets (logins, logouts, heartbeats) is not called from here; their effect on the registry is what the runs of `InstanceRuns` and `Transfers` describe.
- Sheets.RowIsParsed: of the reasons for which the protocol compiler may refuse the generated file, only a name declared twice is modelled.
- Sheets.DataParser.ParseField: the conversion of a cell is not modelled; a cell is its value, or None if it is empty.
- The presence word: a record of nine bits, not an integer; the members of an object other than nested messages, repeated fields and the cached size are held in one record, and each is still read and written on its own. Enum values are numbers.
- `_has_bits_` of the root message, which no field uses.
- Changing a nested message in place through a `mutable_` accessor of its parent: nested messages change only through parsing, merging, copying, clearing and swapping of the tree that owns them, and through their own setters before they are added.
- Reuse of cleared elements by repeated fields, arenas, aliasing of strings, and how buffers are refilled: the input is one flat buffer and the output says only how much room is left after each number of bytes.
- Reflection, descriptors, UTF-8 warnings, text format, `IsInitialized` (there are no required fields).
- The multi-index containers of the router and the login cache: modelled by what they promise, a set of records with ordered views.
- Network calls appear only as entries of a log; configuration files as the list of their lines, or None when reading fails; logging not at all.
- `TransferMgr::Tick`, `SendMsgToTransferByFd` and heartbeats: message plumbing over a buffer and frame that carry no state worth a claim.
- `diagnostic_information` of the exception library, which builds a text in the order of type addresses.
- In the spreadsheet translator: comments, indentation, the file written, and trimming of white space other than blanks around a name with an equals sign.
- The rest of the repository: server agent, connection server, coroutines, network library, and the vendored headers.
