# SqlBulkData bulk-table format, in Dafny

DataTools.SqlBulkData exports the tables of a SQL Server database to one binary
"bulk table" file per table and imports such files back. This project models the
core of that tool and proves properties of the model:

- the little-endian, aligned primitive codecs of `Serialiser` (integers, GUIDs,
  date-times, UTF-8 strings, length-prefixed and fixed-length byte arrays), over a
  stream that is a byte sequence with a position (`Streams`, `RangeStream`);
- the chunked container: the file header, the chunk header with its back-patched
  length (`ReservedField`), the chunk writer and the chunk reader;
- the table file: the TABL, COLS and ROWD chunks, the bulk-table writer and the
  reader that opens a file and finds its row data;
- the row codecs: the per-column serialisers, the null bitmap (`BitSetPacker`,
  `NullFieldMap`), the row writer and reader, and the packed decimal format
  (`DecimalPacker`, `BufferUtils`);
- the persisted model (column flags, column data types, column and table
  descriptors) and its validation;
- the model builders for export and import, the field-name correlator, the file
  naming rule, the table identifiers, the foreign-key and database comparers, and
  the command-line argument parser.

Code that changes state in place (streams, the chunk reader and writer, the
packers, the row reader and writer, the argument parser) is modelled by classes
and methods whose contracts tie the new state to functions of the old; each of
those functions has its own round-trip or invariant lemmas. The pure parts
(descriptors, builders, comparers) are functions with lemmas.

The model takes a little-endian machine, as every supported runtime is. Runtime
hash functions, `Enum.TryParse` and `Path.GetFullPath` are parameters.

## Model

| member | source | states |
|---|---|---|
| Serialiser.AlignmentAdjustment | DataTools.SqlBulkData/Serialisation/Serialiser.cs:211-221 | fails with ArgumentException exactly when the alignment is not in 1..16; otherwise the adjustment is below the alignment, brings the position to a multiple of it, and is zero exactly when the position is already aligned |
| Serialiser.AdjustmentIsLeast | DataTools.SqlBulkData/Serialisation/Serialiser.cs:216-220 | no smaller skip than the adjustment reaches an aligned position |
| Serialiser.SkipForwards | DataTools.SqlBulkData/Serialisation/Serialiser.cs:41-51 | skipping succeeds exactly when the distance is available, and the position moves by the distance or to the end, whichever comes first |
| Serialiser.TryAlignReadAt | DataTools.SqlBulkData/Serialisation/Serialiser.cs:67-73 | fails exactly when the alignment is out of range |
| Serialiser.TryAlignReadMeaning | DataTools.SqlBulkData/Serialisation/Serialiser.cs:67-73 | on true, the new position is the first aligned one at or after the old; on false, no aligned position remains in the stream and the position is at its end |
| Serialiser.TryAlignRead | DataTools.SqlBulkData/Serialisation/Serialiser.cs:67-73 | the method's result and final position are those TryAlignReadAt describes |
| Serialiser.AlignRead | DataTools.SqlBulkData/Serialisation/Serialiser.cs:57-61 | the result and position are AlignReadAt's: TryAlignRead, with false turned into EndOfStreamException |
| Serialiser.AlignReadAt | DataTools.SqlBulkData/Serialisation/Serialiser.cs:57-61 | a successful aligned read never moves backwards |
| Serialiser.SeekReadForwards | DataTools.SqlBulkData/Serialisation/Serialiser.cs:27-39 | a seekable stream is placed at the position; an unseekable one refuses a backward target with NotSupportedException, and otherwise reads forward, failing with EndOfStreamException exactly when the target lies past the data |
| Serialiser.EmitAlignmentMeaning | DataTools.SqlBulkData/Serialisation/Serialiser.cs:78-86 | AlignWrite fails on an unwritable stream (NotSupported) or bad alignment (Argument); otherwise it writes fewer zero bytes than the alignment, none when already aligned, and ends aligned |
| Serialiser.AlignmentRoundTrip | DataTools.SqlBulkData/Serialisation/Serialiser.cs:57-86 | reading at a position padded by AlignWrite skips exactly that padding |
| Serialiser.AlignWrite | DataTools.SqlBulkData/Serialisation/Serialiser.cs:78-86 | the stream's new data and position are those EmitAlignment describes, spliced in at the old position |
| Serialiser.ParseFixed | DataTools.SqlBulkData/Serialisation/Serialiser.cs:153-168 | a fixed-length read succeeds exactly when the position is aligned (else InvalidOperation) and the bytes are available (else EndOfStream), and yields those bytes |
| Serialiser.CheckedRead | DataTools.SqlBulkData/Serialisation/Serialiser.cs:204-209 | the result and position are ParseFixed's with no alignment; the position advances by what was available |
| Serialiser.ReadFixed | DataTools.SqlBulkData/Serialisation/Serialiser.cs:153-168 | the result and position are ParseFixed's; a short read leaves the position at the end |
| Serialiser.EmitFixed | DataTools.SqlBulkData/Serialisation/Serialiser.cs:170-175 | a fixed-length write succeeds exactly when aligned (else InvalidOperation) and writable (else NotSupported), and emits the bytes unchanged |
| Serialiser.WriteFixed | DataTools.SqlBulkData/Serialisation/Serialiser.cs:170-175 | the new data and position are EmitFixed's spliced in; a failed write changes nothing |
| Serialiser.FixedRoundTrip | DataTools.SqlBulkData/Serialisation/Serialiser.cs:153-175 | bytes written by a fixed-length write read back unchanged, ending after them |
| Serialiser.Int16Codec | DataTools.SqlBulkData/Serialisation/Serialiser.cs:123-126 | the 2-byte two's-complement little-endian encoding is a bijection between int16 values and byte pairs |
| Serialiser.Int32Codec | DataTools.SqlBulkData/Serialisation/Serialiser.cs:118-119 | the same for int32 over 4 bytes |
| Serialiser.Int64Codec | DataTools.SqlBulkData/Serialisation/Serialiser.cs:113-114 | the same for int64 over 8 bytes |
| Serialiser.UnsignedCodec | DataTools.SqlBulkData/Serialisation/Serialiser.cs:115-126 | the unsigned little-endian encoding of n bytes is a bijection onto the values below 256^n |
| Serialiser.NarrowEncodings | DataTools.SqlBulkData/Serialisation/Serialiser.cs:118-126 | -2 as int16 is FE FF, 0x1234 is 34 12, -1 as int32 is four FF bytes, 1 is 01 00 00 00 |
| Serialiser.WideEncodings | DataTools.SqlBulkData/Serialisation/Serialiser.cs:113-121 | the least int64 is seven zero bytes then 80, and the uint32 0x4C425442 is the bytes of "BTBL" |
| Serialiser.Int16RoundTrip | DataTools.SqlBulkData/Serialisation/Serialiser.cs:123-124 | a written int16 reads back, 2-aligned, ending two bytes later |
| Serialiser.UInt16RoundTrip | DataTools.SqlBulkData/Serialisation/Serialiser.cs:125-126 | a written uint16 reads back, 2-aligned |
| Serialiser.Int32RoundTrip | DataTools.SqlBulkData/Serialisation/Serialiser.cs:118-119 | a written int32 reads back, 4-aligned |
| Serialiser.UInt32RoundTrip | DataTools.SqlBulkData/Serialisation/Serialiser.cs:120-121 | a written uint32 reads back, 4-aligned |
| Serialiser.Int64RoundTrip | DataTools.SqlBulkData/Serialisation/Serialiser.cs:113-114 | a written int64 reads back; eight bytes aligned to 4 |
| Serialiser.UInt64RoundTrip | DataTools.SqlBulkData/Serialisation/Serialiser.cs:115-116 | a written uint64 reads back; eight bytes aligned to 4 |
| Serialiser.ReadInt16 | DataTools.SqlBulkData/Serialisation/Serialiser.cs:123 | result and position are ParseInt16's |
| Serialiser.ReadUInt16 | DataTools.SqlBulkData/Serialisation/Serialiser.cs:125 | result and position are ParseUInt16's |
| Serialiser.ReadInt32 | DataTools.SqlBulkData/Serialisation/Serialiser.cs:118 | result and position are ParseInt32's |
| Serialiser.ReadUInt32 | DataTools.SqlBulkData/Serialisation/Serialiser.cs:120 | result and position are ParseUInt32's; a short aligned read leaves the position at the end |
| Serialiser.ReadInt64 | DataTools.SqlBulkData/Serialisation/Serialiser.cs:113 | result and position are ParseInt64's; a short aligned read leaves the position at the end |
| Serialiser.ReadUInt64 | DataTools.SqlBulkData/Serialisation/Serialiser.cs:115 | result and position are ParseUInt64's |
| Serialiser.WriteInt16 | DataTools.SqlBulkData/Serialisation/Serialiser.cs:124 | writes Int16Bytes, 2-aligned, as EmitFixed describes |
| Serialiser.WriteUInt16 | DataTools.SqlBulkData/Serialisation/Serialiser.cs:126 | writes UInt16Bytes, 2-aligned |
| Serialiser.WriteInt32 | DataTools.SqlBulkData/Serialisation/Serialiser.cs:119 | writes Int32Bytes, 4-aligned |
| Serialiser.WriteUInt32 | DataTools.SqlBulkData/Serialisation/Serialiser.cs:121 | writes UInt32Bytes, 4-aligned |
| Serialiser.WriteInt64 | DataTools.SqlBulkData/Serialisation/Serialiser.cs:114 | writes Int64Bytes aligned to 4; a failed write changes nothing |
| Serialiser.WriteUInt64 | DataTools.SqlBulkData/Serialisation/Serialiser.cs:116 | writes UInt64Bytes aligned to 4 |
| Serialiser.WriteSingle | DataTools.SqlBulkData/Serialisation/Serialiser.cs:109 | writes the float's 4-byte pattern, 4-aligned |
| Serialiser.ReadSingle | DataTools.SqlBulkData/Serialisation/Serialiser.cs:108 | reads a 4-byte pattern, 4-aligned, as ParseSingle describes |
| Serialiser.WriteDouble | DataTools.SqlBulkData/Serialisation/Serialiser.cs:111 | writes the double's 8-byte pattern aligned to 4 |
| Serialiser.ReadDouble | DataTools.SqlBulkData/Serialisation/Serialiser.cs:110 | reads an 8-byte pattern aligned to 4 |
| Serialiser.ParseByte | DataTools.SqlBulkData/Serialisation/Serialiser.cs:128-133 | fails with EndOfStream exactly at the end of the stream, otherwise yields the byte under the position |
| Serialiser.ReadByte | DataTools.SqlBulkData/Serialisation/Serialiser.cs:128-133 | result and position are ParseByte's |
| Serialiser.EmitByte | DataTools.SqlBulkData/Serialisation/Serialiser.cs:134 | a writable stream gets the one byte, an unwritable one fails with NotSupported |
| Serialiser.WriteByte | DataTools.SqlBulkData/Serialisation/Serialiser.cs:134 | the new data and position are EmitByte's spliced in |
| Serialiser.ParseGuid | DataTools.SqlBulkData/Serialisation/Serialiser.cs:105 | a GUID read takes 16 bytes |
| Serialiser.ReadGuid | DataTools.SqlBulkData/Serialisation/Serialiser.cs:105 | result and position are ParseGuid's: 16 bytes, 8-aligned |
| Serialiser.WriteGuid | DataTools.SqlBulkData/Serialisation/Serialiser.cs:106 | writes the GUID's 16 bytes, 8-aligned |
| Serialiser.GuidRoundTrip | DataTools.SqlBulkData/Serialisation/Serialiser.cs:105-106 | a written GUID reads back |
| Serialiser.ReadDateTime | DataTools.SqlBulkData/Serialisation/Serialiser.cs:90 | reads the DateTime's binary form as an int64 |
| Serialiser.WriteDateTime | DataTools.SqlBulkData/Serialisation/Serialiser.cs:91 | writes the DateTime's binary form as an int64 |
| Serialiser.EmitDateTimeOffset | DataTools.SqlBulkData/Serialisation/Serialiser.cs:99-103 | a DateTimeOffset is its DateTime's int64 followed by its offset in minutes as an int32 |
| Serialiser.ParseDateTimeOffset | DataTools.SqlBulkData/Serialisation/Serialiser.cs:93-98 | a DateTimeOffset read takes 12 bytes |
| Serialiser.WriteDateTimeOffset | DataTools.SqlBulkData/Serialisation/Serialiser.cs:99-103 | the new data and position are EmitDateTimeOffset's |
| Serialiser.ReadDateTimeOffset | DataTools.SqlBulkData/Serialisation/Serialiser.cs:93-98 | result and position are ParseDateTimeOffset's |
| Serialiser.DateTimeOffsetRoundTrip | DataTools.SqlBulkData/Serialisation/Serialiser.cs:93-103 | a written DateTimeOffset reads back, ending 12 bytes later |
| Serialiser.EmitBytes | DataTools.SqlBulkData/Serialisation/Serialiser.cs:185-189 | a byte array is written as its int32 length followed by its bytes |
| Serialiser.ParseBytes | DataTools.SqlBulkData/Serialisation/Serialiser.cs:177-183 | a byte-array read ends after the length prefix and as many bytes as it names |
| Serialiser.WriteBytes | DataTools.SqlBulkData/Serialisation/Serialiser.cs:185-189 | the new data and position are EmitBytes's |
| Serialiser.ReadBytes | DataTools.SqlBulkData/Serialisation/Serialiser.cs:177-183 | result and position are ParseBytes's |
| Serialiser.BytesRoundTrip | DataTools.SqlBulkData/Serialisation/Serialiser.cs:177-189 | a written byte array reads back, ending after it |
| Serialiser.WriteString | DataTools.SqlBulkData/Serialisation/Serialiser.cs:141-145 | a null string fails with ArgumentNull and writes nothing; otherwise the UTF-8 bytes are written as a byte array |
| Serialiser.ParseString | DataTools.SqlBulkData/Serialisation/Serialiser.cs:136-140 | a string read succeeds exactly when the byte-array read does |
| Serialiser.ReadString | DataTools.SqlBulkData/Serialisation/Serialiser.cs:136-140 | result and position are ParseString's |
| Serialiser.StringRoundTrip | DataTools.SqlBulkData/Serialisation/Serialiser.cs:136-145 | a written string reads back as the same string |
| Serialiser.WriteFixedLengthBytes | DataTools.SqlBulkData/Serialisation/Serialiser.cs:148 | writes the bytes unchanged with no alignment |
| Serialiser.ReadFixedLengthBytes | DataTools.SqlBulkData/Serialisation/Serialiser.cs:147 | reads exactly the buffer's length of bytes with no alignment |
| Utf8.EncodeChar | DataTools.SqlBulkData/Serialisation/Serialiser.cs:143 | a character takes one to four UTF-8 bytes, one exactly when it is ASCII |
| Utf8.DecodeEncodedChar | DataTools.SqlBulkData/Serialisation/Serialiser.cs:136-145 | decoding a character's UTF-8 bytes, whatever follows, gives the character and consumes exactly its bytes |
| Utf8.DecodeEncode | DataTools.SqlBulkData/Serialisation/Serialiser.cs:136-145 | decoding the UTF-8 encoding of a string gives the string back |
| Utf8.DecodeStrayByte | DataTools.SqlBulkData/Serialisation/Serialiser.cs:136-139 | a lone byte that cannot start a UTF-8 sequence decodes as the one character U+FFFD |
| Utf8.EncodeAscii | DataTools.SqlBulkData/Serialisation/Serialiser.cs:143 | an ASCII string encodes as one byte per character, each its code |
| RangeStreams.ValidateRange | DataTools.SqlBulkData/Serialisation/RangeStream.cs:22-30 | a window is accepted exactly when start and length are not negative (else ArgumentOutOfRange), the stream is not before the start (else InvalidOperation), the stream has a length (else NotSupported) and the window ends within it (else ArgumentOutOfRange) |
| RangeStreams.ValidatedWindowIsReadable | DataTools.SqlBulkData/Serialisation/RangeStream.cs:22-30 | an accepted window lies within the data, and the bytes it leaves available from the current position are its end less that position |
| RangeStreams.RemainingRange | DataTools.SqlBulkData/Serialisation/RangeStream.cs:137-140 | WindowRemaining covers the stream from its position to its end, and is refused for a stream without a length |
| RangeStreams.Clamp | DataTools.SqlBulkData/Serialisation/RangeStream.cs:54-64 | a seek target is clamped into 0..length |
| RangeStreams.RangeStream.constructor | DataTools.SqlBulkData/Serialisation/RangeStream.cs:12-20 | the range remembers the stream and its window and is open |
| RangeStreams.RangeStream.SetPosition | DataTools.SqlBulkData/Serialisation/RangeStream.cs:39-47 | a negative position throws ArgumentOutOfRange; otherwise the position becomes the value capped at the length, over a seekable open stream |
| RangeStreams.RangeStream.SeekBegin | DataTools.SqlBulkData/Serialisation/RangeStream.cs:53-56 | seeking from the beginning lands on the offset clamped into the window and returns the new position |
| RangeStreams.RangeStream.SeekCurrent | DataTools.SqlBulkData/Serialisation/RangeStream.cs:61-68 | seeking from the current position lands on the old position plus the offset, clamped into the window, and returns it |
| RangeStreams.RangeStream.Read | DataTools.SqlBulkData/Serialisation/RangeStream.cs:75-84 | a read returns the next bytes of the underlying stream, no more than the count and no more than remain in the window (none at or past its end), and advances by what it returned |
| RangeStreams.RangeStream.Write | DataTools.SqlBulkData/Serialisation/RangeStream.cs:125 | writing to a range throws NotSupportedException |
| RangeStreams.RangeStream.Dispose | DataTools.SqlBulkData/Serialisation/RangeStream.cs:98-109 | a disposed range is closed; later reads fail with NullReference |
| RangeStreams.Open | DataTools.SqlBulkData/Serialisation/RangeStream.cs:132-135 | Window fails exactly when ValidateRange does, with its error; otherwise the new range is open, over the stream, with that window, and positioned at the stream's position less the start |
| RangeStreams.OpenRemaining | DataTools.SqlBulkData/Serialisation/RangeStream.cs:137-140 | WindowRemaining fails exactly when RemainingRange does; otherwise the range starts at position 0 and covers the rest of the stream |
| BufferUtils.ApplySignMultiplierToTwosComplement | DataTools.SqlBulkData/Serialisation/BufferUtils.cs:19-28 | with a zero mask the words are copied; with the all-ones mask the words, read as one little-endian number, become its two's-complement negation modulo 2^(32·count) |
| BufferUtils.NegationInvolution | DataTools.SqlBulkData/Serialisation/BufferUtils.cs:19-28 | negating twice gives the number back |
| BufferUtils.SignAppliedIsTwosComplement | DataTools.SqlBulkData/Serialisation/BufferUtils.cs:7-17 | a magnitude with the sign applied is the two's-complement encoding of the signed value over the buffer |
| BufferUtils.SignAppliedInvolution | DataTools.SqlBulkData/Serialisation/BufferUtils.cs:7-39 | applying the sign to a sign-applied magnitude gives the magnitude back, which is why unpacking reuses the packing routine |
| BufferUtils.ApplySignToUnsigned | DataTools.SqlBulkData/Serialisation/BufferUtils.cs:7-17 | the first byteCount bytes of the target are the source magnitude with the sign applied, and every later byte is the sign byte (00 or FF) |
| BufferUtils.UnapplySignFromSigned | DataTools.SqlBulkData/Serialisation/BufferUtils.cs:30-39 | the first byteCount/4 words of the target hold the source with the sign applied, and every later word is zero |
| BufferUtils.SignAppliedExamples | DataTools.SqlBulkData.UnitTests/Serialisation/BufferUtilsTests.cs:9-25 | 9 negated over 8 bytes is F7 followed by seven FF; 494336 negated is 00 75 F8 followed by five FF |
| BitSets.UnpackedBitCountOf | DataTools.SqlBulkData/BitSetPacker.cs:19-25 | the unpacked bit count is the least array size every index fits in (the largest index plus one, or 0) |
| BitSets.PackedByteCountOf | DataTools.SqlBulkData/BitSetPacker.cs:26 | the packed byte count is the fewest bytes with a bit for every index |
| BitSets.PackedByteMeaning | DataTools.SqlBulkData/BitSetPacker.cs:28-45 | bit j of packed byte i is the boolean selected by index 8i+j, and is clear past the last index |
| BitSets.PackedByteOfNothing | DataTools.SqlBulkData/BitSetPacker.cs:38 | a byte past the selected indexes packs as zero |
| BitSets.UnpackedElsewhere | DataTools.SqlBulkData/BitSetPacker.cs:47-62 | unpacking leaves every position that is not among the indexes unchanged |
| BitSets.UnpackedAt | DataTools.SqlBulkData/BitSetPacker.cs:47-62 | unpacking sets the position of the k-th index to bit k%8 of byte k/8 |
| BitSets.IncreasingIsDistinct | DataTools.SqlBulkData/BitSetPacker.cs:7-11 | increasing indexes are distinct, so no position is unpacked twice |
| BitSets.PackUnpack | DataTools.SqlBulkData/BitSetPacker.cs:28-62 | unpacking packed bytes restores every selected boolean, whatever the target held |
| BitSets.PackUnpackInPlace | DataTools.SqlBulkData/BitSetPacker.cs:28-62 | unpacking packed bytes into the array they were packed from changes nothing |
| BitSets.BitSetPacker.constructor | DataTools.SqlBulkData/BitSetPacker.cs:19-23 | the packer keeps its indexes |
| BitSets.BitSetPacker.Pack | DataTools.SqlBulkData/BitSetPacker.cs:28-45 | every target byte becomes PackedByte of the source booleans |
| BitSets.BitSetPacker.Unpack | DataTools.SqlBulkData/BitSetPacker.cs:47-62 | the target booleans become Unpacked from the bytes, over as many indexes as the bytes carry |
| BitSets.TestCounts | DataTools.SqlBulkData.UnitTests/BitSetPackerTests.cs:8-14 | the test indexes pack into 2 bytes and need 19 booleans |
| BitSets.TestPacking | DataTools.SqlBulkData.UnitTests/BitSetPackerTests.cs:44-53 | the test booleans pack to 11011001 00001111 |
| BitSets.TestUnpacking | DataTools.SqlBulkData.UnitTests/BitSetPackerTests.cs:55-71 | those bytes unpack over all-false booleans to the expected pattern |
| BitSets.TestUnpackingInPlace | DataTools.SqlBulkData.UnitTests/BitSetPackerTests.cs:73-83 | unpacking them over the original booleans changes nothing |
| NullFieldMaps.NullableIndexes | DataTools.SqlBulkData/NullFieldMap.cs:14-20 | the packer's indexes are the nullable columns, in increasing order |
| NullFieldMaps.BitmapPacked | DataTools.SqlBulkData/NullFieldMap.cs:34-38 | the bitmap is the null flags packed over the nullable columns |
| NullFieldMaps.UnpackedOverClearFlags | DataTools.SqlBulkData/NullFieldMap.cs:28-32 | unpacking over flags that are clear at non-nullable columns gives NullsFrom of the bytes |
| NullFieldMaps.BitmapRoundTrip | DataTools.SqlBulkData/NullFieldMap.cs:28-38 | reading back a written bitmap gives, at each column, its null flag if it is nullable and false otherwise |
| NullFieldMaps.NullFieldMap.constructor | DataTools.SqlBulkData/NullFieldMap.cs:14-24 | a new map has the nullable indexes, one clear flag per column and a zeroed buffer of the packed size |
| NullFieldMaps.NullFieldMap.Write | DataTools.SqlBulkData/NullFieldMap.cs:34-38 | the buffer becomes the packed flags and they are written as fixed-length bytes |
| NullFieldMaps.NullFieldMap.Read | DataTools.SqlBulkData/NullFieldMap.cs:28-32 | the buffer's length of bytes is read and unpacked into the flags; flags of non-nullable columns are left alone, and a short read fails as the read does |
| ReservedFields.Reserve | DataTools.SqlBulkData/Serialisation/ReservedField.cs:12-20 | reserving needs a writable, seekable stream (ArgumentException otherwise); it records the position and writes a zero int64 there |
| ReservedFields.WriteReserved | DataTools.SqlBulkData/Serialisation/ReservedField.cs:22-28 | writing the value seeks to the mark, writes the int64 there and seeks back: only those eight bytes change and the position is restored |
| ReservedFields.BackPatch | DataTools.SqlBulkData/Serialisation/ReservedField.cs:22-28 | the patched data has the same length, differs only in the reserved bytes, and reads the value back from the mark |
| TypeIds.TagValues | DataTools.SqlBulkData/TypeIds.cs:8-11 | the four type ids are the little-endian uint32 values of "BTBL", "TABL", "COLS" and "ROWD" |
| TypeIds.TagsSpellTheirNames | DataTools.SqlBulkData/TypeIds.cs:8-11 | written as uint32, each type id is the ASCII bytes of its name |
| TypeIds.TagsDistinct | DataTools.SqlBulkData/TypeIds.cs:8-12 | the four type ids are pairwise distinct, and the row header byte 0x52 is ASCII "R" |
| ChunkedFileHeaders.EmitHeader | DataTools.SqlBulkData/Serialisation/ChunkedFileHeaderSerialiser.cs:9-24 | writing a header needs an 8-aligned position (else InvalidOperation) and a writable stream; it emits 8 bytes: the file type id, version 1 as int16, and two zero bytes |
| ChunkedFileHeaders.ParseHeader | DataTools.SqlBulkData/Serialisation/ChunkedFileHeaderSerialiser.cs:26-36 | reading a header at an unaligned position fails with InvalidOperation; otherwise it succeeds exactly when 8 bytes remain, and ends 8 bytes on with a header size of 8 |
| ChunkedFileHeaders.WriteHeader | DataTools.SqlBulkData/Serialisation/ChunkedFileHeaderSerialiser.cs:9-24 | returns the header (type id, version 1, size 8) with EmitHeader's bytes written and the position 8 further; a failure changes nothing |
| ChunkedFileHeaders.ReadHeader | DataTools.SqlBulkData/Serialisation/ChunkedFileHeaderSerialiser.cs:26-36 | result and position are ParseHeader's |
| ChunkedFileHeaders.HeaderRoundTrip | DataTools.SqlBulkData/Serialisation/ChunkedFileHeaderSerialiser.cs:9-36 | a written header reads back as the same type id, version 1 and size 8 |
| ChunkedFileWriters.ChunkPadding | DataTools.SqlBulkData/Serialisation/ChunkedFileWriter.cs:63 | the padding before a chunk is fewer than 8 zero bytes and leaves the position 8-aligned |
| ChunkedFileWriters.ChunkStartLayout | DataTools.SqlBulkData/Serialisation/ChunkedFileWriter.cs:19-53 | a chunk starts with the padding, then the type id, four zero bytes and a zero int64 length, and its data begins 8-aligned |
| ChunkedFileWriters.PatchedHeader | DataTools.SqlBulkData/Serialisation/ChunkedFileWriter.cs:55-59 | patching the length field turns the chunk header into the one carrying that length |
| ChunkedFileWriters.ChunkClosed | DataTools.SqlBulkData/Serialisation/ChunkedFileWriter.cs:19-59 | writing a chunk's start, then its body, then patching its length gives the chunk image: padding, header with the body's length, body |
| ChunkedFileWriters.ChunkedFileWriter.constructor | DataTools.SqlBulkData/Serialisation/ChunkedFileWriter.cs:12-17 | the writer holds the stream and has no open chunk |
| ChunkedFileWriters.Open | DataTools.SqlBulkData/Serialisation/ChunkedFileWriter.cs:12-17 | a writer over a stream that is not writable or not seekable is refused with ArgumentException |
| ChunkedFileWriters.ChunkedFileWriter.BeginChunk | DataTools.SqlBulkData/Serialisation/ChunkedFileWriter.cs:19-28 | with a chunk already open it throws InvalidOperationException and writes nothing; otherwise the chunk start is written at the stream's position, the new chunk is current and its data starts after the header |
| ChunkedFileWriters.StartChunk | DataTools.SqlBulkData/Serialisation/ChunkedFileWriter.cs:42-53 | a chunk writer needs an 8-aligned position (ArgumentException otherwise); it writes the header with a zero length and records where the data starts |
| ChunkedFileWriters.ChunkWriter.constructor | DataTools.SqlBulkData/Serialisation/ChunkedFileWriter.cs:42-53 | the chunk writer keeps its parent, type id, length field and data start |
| ChunkedFileWriters.ChunkWriter.Dispose | DataTools.SqlBulkData/Serialisation/ChunkedFileWriter.cs:55-59 | closing a chunk writes the data's length into the length field, keeps the position, and ends the chunk if it is the current one |
| ChunkedFileWriters.ChunkedFileWriter.EndChunk | DataTools.SqlBulkData/Serialisation/ChunkedFileWriter.cs:62-70 | ending the current chunk clears it; ending any other chunk changes nothing |
| ChunkedFileWriters.OneByteChunk | DataTools.SqlBulkData.UnitTests/Serialisation/ChunkedFileWriterTests.cs:11-48 | a chunk of type 1 holding the byte 0x42 is the header with length 1 followed by 0x42, and the position ends at 17 |
| ChunkedFileWriters.OneByteChunkImageIs | DataTools.SqlBulkData.UnitTests/Serialisation/ChunkedFileWriterTests.cs:27-32 | that image is the seventeen bytes the test expects |
| ChunkedFileReaders.ParseHeaderFields | DataTools.SqlBulkData/Serialisation/ChunkedFileReader.cs:84-91 | a chunk header's fields (type id, a skipped uint32, int64 length) take 16 bytes |
| ChunkedFileReaders.ParseChunkHeader | DataTools.SqlBulkData/Serialisation/ChunkedFileReader.cs:73-99 | an unaligned position fails with InvalidOperation; a header found starts at the position, ends 16 bytes on, and its end offset is the end of its data |
| ChunkedFileReaders.NoHeaderAtEnd | DataTools.SqlBulkData/Serialisation/ChunkedFileReader.cs:78-96 | with fewer than 16 bytes left a seekable stream finds no header; an unseekable one finds none at the very end and fails with EndOfStream part-way into a header |
| ChunkedFileReaders.WrittenHeaderReadsBack | DataTools.SqlBulkData/Serialisation/ChunkedFileReader.cs:73-99 | a header the writer wrote reads back with its type id and length and an end offset 16+length on, unless its length is negative (InvalidOperation) |
| ChunkedFileReaders.ReadNext | DataTools.SqlBulkData/Serialisation/ChunkedFileReader.cs:57-69 | when no header is found nothing moves; when one is, it starts at the position, the position is after it, and its data lies within the stream |
| ChunkedFileReaders.NextChunk | DataTools.SqlBulkData/Serialisation/ChunkedFileReader.cs:49-60 | MoveNext either keeps the current chunk or finds a new one whose data lies within the stream, at or after the end of the old one, with the position at the start of its data |
| ChunkedFileReaders.SkipChunk | DataTools.SqlBulkData/Serialisation/ChunkedFileReader.cs:52-56 | skipping a chunk lands 8-aligned at or after its end, or at the end of the stream when no aligned position remains |
| ChunkedFileReaders.SeekChunk | DataTools.SqlBulkData/Serialisation/ChunkedFileReader.cs:28-45 | seeking a bookmark yields the chunk whose header starts at its offset, of its type, with the position after the header |
| ChunkedFileReaders.WrittenChunkFound | DataTools.SqlBulkData/Serialisation/ChunkedFileReader.cs:73-99 | a written chunk is found at an aligned position with its type, length and end |
| ChunkedFileReaders.FirstChunkFound | DataTools.SqlBulkData/Serialisation/ChunkedFileReader.cs:49-60 | the first MoveNext finds the chunk at the position |
| ChunkedFileReaders.SkipReachesNext | DataTools.SqlBulkData/Serialisation/ChunkedFileReader.cs:52-56 | skipping a chunk lands on the next 8-aligned position after it |
| ChunkedFileReaders.NextChunkFound | DataTools.SqlBulkData/Serialisation/ChunkedFileReader.cs:49-60 | MoveNext after a chunk finds the chunk written at the next 8-aligned position |
| ChunkedFileReaders.LastChunkEnds | DataTools.SqlBulkData/Serialisation/ChunkedFileReader.cs:49-60 | MoveNext after the chunk that ends the stream returns false and keeps that chunk |
| ChunkedFileReaders.FalseMoveRepeats | DataTools.SqlBulkData/Serialisation/ChunkedFileReader.cs:49-60 | once MoveNext has returned false it keeps returning false |
| ChunkedFileReaders.LengthPastEndRefused | DataTools.SqlBulkData/Serialisation/ChunkedFileReader.cs:62-69 | a chunk whose length runs past the stream's end is refused with ArgumentOutOfRange when its window is opened |
| ChunkedFileReaders.UnseekableFindsNothing | DataTools.SqlBulkData/Serialisation/ChunkedFileReader.cs:78-82 | over an unseekable stream no chunk is ever found, since its window cannot be opened |
| ChunkedFileReaders.BookmarkReturns | DataTools.SqlBulkData/Serialisation/ChunkedFileReader.cs:28-45 | seeking a found chunk's bookmark returns the same chunk; a bookmark of another type fails with InvalidOperation |
| ChunkedFileReaders.ChunkReader.constructor | DataTools.SqlBulkData/Serialisation/ChunkedFileReader.cs:105-109 | the chunk reader holds its header and range |
| ChunkedFileReaders.ChunkReader.GetBookmark | DataTools.SqlBulkData/Serialisation/ChunkedFileReader.cs:111 | a bookmark is the chunk's type id and header offset |
| ChunkedFileReaders.ChunkReader.Invalidate | DataTools.SqlBulkData/Serialisation/ChunkedFileReader.cs:117-120 | invalidating a chunk reader closes its range |
| ChunkedFileReaders.ChunkedFileReader.constructor | DataTools.SqlBulkData/Serialisation/ChunkedFileReader.cs:19-23 | the reader keeps the stream and file header and has no current chunk |
| ChunkedFileReaders.ChunkedFileReader.TryReadChunkHeader | DataTools.SqlBulkData/Serialisation/ChunkedFileReader.cs:73-99 | result and position are ParseChunkHeader's |
| ChunkedFileReaders.ChunkedFileReader.ReadHeaderFields | DataTools.SqlBulkData/Serialisation/ChunkedFileReader.cs:84-96 | result and position are ParseHeaderFields'; a failed read left the position unmoved exactly when nothing was available |
| ChunkedFileReaders.ChunkedFileReader.SetCurrent | DataTools.SqlBulkData/Serialisation/ChunkedFileReader.cs:62-69 | opens a range over the chunk's data, fails as ValidateRange does, otherwise makes a fresh reader current and closes the previous one |
| ChunkedFileReaders.ChunkedFileReader.MoveNext | DataTools.SqlBulkData/Serialisation/ChunkedFileReader.cs:49-60 | result, position and current chunk are those NextChunk describes; a successful move makes a fresh open reader current and closes the old one |
| ChunkedFileReaders.ChunkedFileReader.SkipPast | DataTools.SqlBulkData/Serialisation/ChunkedFileReader.cs:52-56 | result and position are SkipChunk's |
| ChunkedFileReaders.ChunkedFileReader.SeekTo | DataTools.SqlBulkData/Serialisation/ChunkedFileReader.cs:28-45 | an unseekable stream fails with NotSupported; otherwise the result is SeekChunk's, a failure restores the position and keeps the current chunk, and a success makes the found chunk current |
| TableFileFormat.Pad4Emitted | DataTools.SqlBulkData/BulkTableFileWriter.cs:29 | the padding before a table string is exactly what a four-byte AlignWrite emits, and it ends on a four-byte boundary |
| TableFileFormat.StringField | DataTools.SqlBulkData/Serialisation/Serialiser.cs:136-145 | a string field is four bytes of length followed by the string's UTF-8 bytes |
| TableFileFormat.StringFieldEmitted | DataTools.SqlBulkData/Serialisation/Serialiser.cs:136-145 | at an aligned position the string field is exactly what WriteString emits |
| TableFileFormat.WrittenString | DataTools.SqlBulkData/BulkTableFileWriter.cs:30 | a written string field stays below 2^31 + 4 bytes |
| TableFileFormat.AlignedString | DataTools.SqlBulkData/BulkTableFileWriter.cs:29-30 | padding plus string field stays below 2^31 + 8 bytes |
| TableFileFormat.ParseAlignedString | DataTools.SqlBulkData/BulkTableFileReader.cs:38-39 | a string read after four-byte alignment consumes at least its four-byte length |
| TableFileFormat.AlignedStringRoundTrip | DataTools.SqlBulkData/BulkTableFileReader.cs:38-39 | the aligned string written at any position reads back as the same string, ending where the writing ended |
| TableFileFormat.StringFieldRoundTrip | DataTools.SqlBulkData/Serialisation/Serialiser.cs:136-145 | a string field at a four-byte boundary reads back as the same string, ending after its bytes |
| TableFileFormat.TableBody | DataTools.SqlBulkData/BulkTableFileWriter.cs:28-32 | the table chunk's body (id, aligned name, aligned schema) is far below the chunk-length limit |
| TableFileFormat.ParseTableBody | DataTools.SqlBulkData/BulkTableFileReader.cs:34-43 | a table read back always has a name and a schema, and consumes at least its 16-byte id and two lengths |
| TableFileFormat.TableBodyRoundTrip | DataTools.SqlBulkData/BulkTableFileReader.cs:34-43 | a table with a name and a schema, written as AddTable writes it at an 8-aligned position, reads back as the same descriptor, ending where the body ended |
| TableFileFormat.ColumnFields | DataTools.SqlBulkData/BulkTableFileWriter.cs:49-53 | the fixed part of a column record is exactly ColumnDescriptorLengthMinusName (12) bytes |
| TableFileFormat.ColumnRecord | DataTools.SqlBulkData/BulkTableFileWriter.cs:47-54 | a column record (padding, fixed fields, name) stays below 2^31 + 19 bytes |
| TableFileFormat.ColumnRecords | DataTools.SqlBulkData/BulkTableFileWriter.cs:45-55 | the records of n columns take at most n times the largest record |
| TableFileFormat.NamedPrefix | DataTools.SqlBulkData/BulkTableFileWriter.cs:45-55 | the index of the first column without a name: every column before it is named |
| TableFileFormat.RecordsWritten | DataTools.SqlBulkData/BulkTableFileWriter.cs:45-55 | how many records the loop starts before a null name throws: all of them exactly when every column but the last is named |
| TableFileFormat.ColumnsBody | DataTools.SqlBulkData/BulkTableFileWriter.cs:42-55 | the columns chunk's body is far below the chunk-length limit |
| TableFileFormat.ParseColumnFields | DataTools.SqlBulkData/BulkTableFileReader.cs:56-59 | the fixed fields of a column are read from exactly 12 bytes |
| TableFileFormat.ParseColumnRecord | DataTools.SqlBulkData/BulkTableFileReader.cs:54-61 | a column read back always has a name and consumes at least 16 bytes |
| TableFileFormat.ParseColumnRecords | DataTools.SqlBulkData/BulkTableFileReader.cs:51-62 | reading n records yields exactly n columns |
| TableFileFormat.ParseColumnsBody | DataTools.SqlBulkData/BulkTableFileReader.cs:45-67 | a columns chunk read back has at most 0x7FFF columns and consumes at least its 20-byte head |
| TableFileFormat.ColumnFieldsRoundTrip | DataTools.SqlBulkData/BulkTableFileReader.cs:56-59 | the 12 fixed bytes of a column read back as that column without its name |
| TableFileFormat.ColumnRecordRoundTrip | DataTools.SqlBulkData/BulkTableFileReader.cs:54-61 | a named column's record written at any position reads back as the same column, ending where the record ended |
| TableFileFormat.ColumnRecordsRoundTrip | DataTools.SqlBulkData/BulkTableFileReader.cs:51-62 | the records of named columns read back as the same sequence, in order |
| TableFileFormat.ColumnsBodyRoundTrip | DataTools.SqlBulkData/BulkTableFileReader.cs:45-67 | a column list of named columns, written as AddColumns writes it, reads back as the same table id and columns |
| BulkTableFileWriters.WriteAlignedString | DataTools.SqlBulkData/BulkTableFileWriter.cs:29-30 | writes the padding and the string field in place; a null string fails with ArgumentNull after the padding |
| BulkTableFileWriters.WriteTableBody | DataTools.SqlBulkData/BulkTableFileWriter.cs:28-32 | writes TableBody in place and succeeds exactly when name and schema are both present, failing with ArgumentNull otherwise |
| BulkTableFileWriters.WriteColumnFields | DataTools.SqlBulkData/BulkTableFileWriter.cs:49-53 | writes ColumnFields in place and advances 12 bytes |
| BulkTableFileWriters.WriteColumnRecord | DataTools.SqlBulkData/BulkTableFileWriter.cs:47-54 | writes ColumnRecord in place and succeeds exactly when the column is named |
| BulkTableFileWriters.WriteColumnRecords | DataTools.SqlBulkData/BulkTableFileWriter.cs:45-55 | succeeds exactly when every column is named; the stream holds the records up to and including the first unnamed column |
| BulkTableFileWriters.WriteColumnsBody | DataTools.SqlBulkData/BulkTableFileWriter.cs:42-55 | writes ColumnsBody in place and succeeds exactly when every column is named |
| BulkTableFileWriters.CloseChunk | DataTools.SqlBulkData/BulkTableFileWriter.cs:33 | leaving the using block completes the chunk (header, length, body) and closes the writer's open chunk |
| BulkTableFileWriters.BulkTableFileWriter.constructor | DataTools.SqlBulkData/BulkTableFileWriter.cs:16-22 | keeps the stream, the written header and the chunked writer |
| BulkTableFileWriters.BulkTableFileWriter.AddTable | DataTools.SqlBulkData/BulkTableFileWriter.cs:24-34 | with a chunk open fails with InvalidOperation and changes nothing; otherwise writes a complete table chunk and succeeds exactly when name and schema are present |
| BulkTableFileWriters.BulkTableFileWriter.AddColumns | DataTools.SqlBulkData/BulkTableFileWriter.cs:36-57 | more than 0x7FFF columns fail with ArgumentOutOfRange before anything is written; an open chunk fails with InvalidOperation; otherwise writes a complete columns chunk and succeeds exactly when every column is named |
| BulkTableFileWriters.BulkTableFileWriter.BeginAddRowData | DataTools.SqlBulkData/BulkTableFileWriter.cs:59-64 | with a chunk open fails with InvalidOperation; otherwise opens a row-data chunk, writes the table id and returns the chunk, left open |
| BulkTableFileWriters.Create | DataTools.SqlBulkData/BulkTableFileWriter.cs:16-22 | writes the eight-byte file header; fails with InvalidOperation off an 8-byte boundary, NotSupported on an unwritable stream and Argument on an unseekable one |
| BulkTableFileReaders.OpenFile | DataTools.SqlBulkData/BulkTableFileReader.cs:26-32 | a file opens exactly when its header reads and names the bulk-table file type, leaving the reader just past the eight-byte header; a readable header of another type fails with UnrecognisedFileFormat |
| BulkTableFileReaders.AddTable | DataTools.SqlBulkData/BulkTableFileReader.cs:77 | filing a table succeeds exactly when its id is new (else Argument), adds only that entry and keeps the catalogue keyed by id |
| BulkTableFileReaders.AddColumns | DataTools.SqlBulkData/BulkTableFileReader.cs:82 | filing a column list succeeds exactly when its table id is new (else Argument) and adds only that entry |
| BulkTableFileReaders.ReadChunk | DataTools.SqlBulkData/BulkTableFileReader.cs:74-83 | reading a chunk only extends the catalogue, and a chunk that is neither a table nor a column list leaves everything as it was |
| BulkTableFileReaders.TurnAt | DataTools.SqlBulkData/BulkTableFileReader.cs:72-88 | one turn of the scan loop extends the catalogue, makes progress when it goes on, and stops with found only on a row-data chunk, positioned at its data |
| BulkTableFileReaders.ScanFrom | DataTools.SqlBulkData/BulkTableFileReader.cs:69-90 | the scan terminates, only extends the catalogue, and reports found only positioned at the data of a row-data chunk |
| BulkTableFileReaders.BeginData | DataTools.SqlBulkData/BulkTableFileReader.cs:92-99 | the table data begins after the 16-byte table id and runs to the end of the chunk |
| BulkTableFileReaders.BeginDataMatches | DataTools.SqlBulkData/BulkTableFileReader.cs:95-98 | the data begun is filed under its table's id: the descriptor and the column list are the catalogue's entries for that id |
| BulkTableFileReaders.AfterScan | DataTools.SqlBulkData/BulkTableFileReader.cs:101-107 | after the scan the reader keeps the scan's catalogue and chunk, and found data ends where its chunk ends |
| BulkTableFileReaders.MoveNextAt | DataTools.SqlBulkData/BulkTableFileReader.cs:101-107 | MoveNext only extends the catalogue, and found data lies within the file and ends where the current chunk ends |
| BulkTableFileReaders.ReadTableChunk | DataTools.SqlBulkData/BulkTableFileReader.cs:34-43 | result and position are ParseTableBody's |
| BulkTableFileReaders.ReadAlignedString | DataTools.SqlBulkData/BulkTableFileReader.cs:38-39 | result and position are ParseAlignedString's |
| BulkTableFileReaders.ReadColumnRecord | DataTools.SqlBulkData/BulkTableFileReader.cs:54-61 | result and position are ParseColumnRecord's |
| BulkTableFileReaders.ReadColumnRecords | DataTools.SqlBulkData/BulkTableFileReader.cs:51-62 | result and position are ParseColumnRecords', the loop stopping at the first failure |
| BulkTableFileReaders.ReadColumnsChunk | DataTools.SqlBulkData/BulkTableFileReader.cs:45-67 | result and position are ParseColumnsBody's |
| BulkTableFileReaders.BulkTableData.constructor | DataTools.SqlBulkData/BulkTableFileReader.cs:122-128 | keeps the table, its columns and the data stream |
| BulkTableFileReaders.BulkTableFileReader.constructor | DataTools.SqlBulkData/BulkTableFileReader.cs:20-24 | a new reader has no chunked reader, no current data and empty catalogues |
| BulkTableFileReaders.BulkTableFileReader.EnsureReader | DataTools.SqlBulkData/BulkTableFileReader.cs:26-32 | an existing reader is kept; otherwise the header is read and a fresh chunked reader made exactly when OpenFile succeeds, failing with its error |
| BulkTableFileReaders.BulkTableFileReader.ReadUpToNextBulkData | DataTools.SqlBulkData/BulkTableFileReader.cs:69-90 | result, position, current chunk and catalogue are ReadUpTo's |
| BulkTableFileReaders.BulkTableFileReader.ScanChunks | DataTools.SqlBulkData/BulkTableFileReader.cs:72-89 | the while loop's result, position, chunk and catalogue are ScanFrom's |
| BulkTableFileReaders.BulkTableFileReader.ScanStep | DataTools.SqlBulkData/BulkTableFileReader.cs:72-88 | one iteration of the loop does what TurnAt describes |
| BulkTableFileReaders.BulkTableFileReader.ReadChunkInto | DataTools.SqlBulkData/BulkTableFileReader.cs:74-83 | files the chunk as ReadChunk describes; a failure leaves both dictionaries unchanged |
| BulkTableFileReaders.BulkTableFileReader.BeginReadBulkData | DataTools.SqlBulkData/BulkTableFileReader.cs:92-99 | result and position are BeginData's, with a fresh data stream over the rest of the chunk |
| BulkTableFileReaders.BulkTableFileReader.MoveNext | DataTools.SqlBulkData/BulkTableFileReader.cs:101-107 | result, state and current data are MoveNextAt's; a failure leaves no current data |
| BulkTableFileReaders.BulkTableFileReader.BeginCurrent | DataTools.SqlBulkData/BulkTableFileReader.cs:104-106 | result, state and current data are AfterScan's |
| TableFileRoundTrips.Opened | DataTools.SqlBulkData/BulkTableFileReader.cs:26-32 | a file starting with the written header opens, leaving the reader at byte 8 |
| TableFileRoundTrips.FirstFound | DataTools.SqlBulkData/Serialisation/ChunkedFileReader.cs:49-60 | the first MoveNext over a written chunk finds it, with its header and its data position |
| TableFileRoundTrips.NextFound | DataTools.SqlBulkData/Serialisation/ChunkedFileReader.cs:49-60 | after a chunk, MoveNext finds the chunk written right after it |
| TableFileRoundTrips.TableChunkRead | DataTools.SqlBulkData/BulkTableFileReader.cs:74-78 | a written table chunk is read and filed under its id when that id is new |
| TableFileRoundTrips.ColumnsChunkRead | DataTools.SqlBulkData/BulkTableFileReader.cs:79-83 | a written columns chunk is read and filed under its table id when that id is new |
| TableFileRoundTrips.TableChunkRejected | DataTools.SqlBulkData/BulkTableFileReader.cs:77 | a written table chunk whose id is already filed fails with Argument |
| TableFileRoundTrips.NothingAfterLast | DataTools.SqlBulkData.UnitTests/BulkTableFileReaderWriterTests.cs:38-39 | once the last chunk has been reached, MoveNext finds nothing and leaves the reader at the end of the file |
| TableFileRoundTrips.ScansWrittenFile | DataTools.SqlBulkData/BulkTableFileReader.cs:69-90 | scanning a written file files the table and its columns and stops at the row-data chunk |
| TableFileRoundTrips.WrittenFileOpens | DataTools.SqlBulkData/BulkTableFileReader.cs:101-107 | the first MoveNext over a written file yields the table, its columns and a window over exactly the rows |
| TableFileRoundTrips.FileImageReadsBack | DataTools.SqlBulkData.UnitTests/BulkTableFileReaderWriterTests.cs:15-41 | any named table and named column list, written with any row data, read back as that table, those columns and those rows, and the next MoveNext finds nothing more |
| TableFileRoundTrips.DuplicateTableRejected | DataTools.SqlBulkData/BulkTableFileReader.cs:77 | a file with two table chunks for one id fails MoveNext with Argument |
| TableFileRoundTrips.RowsBeforeTableRejected | DataTools.SqlBulkData/BulkTableFileReader.cs:96 | row data before any table descriptor fails MoveNext with NotSupported |
| TableFileRoundTrips.RowsBeforeColumnsRejected | DataTools.SqlBulkData/BulkTableFileReader.cs:97 | row data after a table but before its column list fails MoveNext with NotSupported |
| TableFileRoundTrips.RowsFound | DataTools.SqlBulkData/BulkTableFileReader.cs:91-107 | stopping on a written row-data chunk, MoveNext yields the table filed under the chunk's id, its columns and a window over the rest of the chunk |
| TableFileRoundTrips.RowsToEnd | DataTools.SqlBulkData/Serialisation/ChunkedFileReader.cs:49-60 | the row-data chunk of a written file runs to the file's end, and the MoveNext after it finds nothing more |
| TableFileRoundTrips.WrittenReadsBack | DataTools.SqlBulkData/BulkTableFileReader.cs:69-107 | any byte image laid out as the writer lays it out reads back as its table, its columns and exactly its rows, and then its end |
| Rows.NullFlags | DataTools.SqlBulkData/BulkRowWriter.cs:29-32 | one flag per column, set exactly for the fields that are DBNull |
| Rows.RowBitmap | DataTools.SqlBulkData/BulkRowWriter.cs:29-33 | the null-field bitmap of a row is exactly BitmapLength bytes, whatever the record |
| Rows.ParseColumn | DataTools.SqlBulkData/BulkRowReader.cs:45-50 | an omitted null reads nothing and yields DBNull; a null field yields DBNull whatever the serialiser read; otherwise it succeeds exactly when the serialiser's read does |
| Rows.BitmapFlags | DataTools.SqlBulkData/BulkRowReader.cs:35 | the bitmap read back gives one null flag per column |
| Rows.ParsePreamble | DataTools.SqlBulkData/BulkRowReader.cs:29-37 | a row preamble that is found gives one null flag per column |
| Rows.ParseFields | DataTools.SqlBulkData/BulkRowReader.cs:38-41 | the fields read give one value per column |
| Rows.ParseRow | DataTools.SqlBulkData/BulkRowReader.cs:27-43 | a row read back has one value per column |
| Rows.ColumnRoundTrip | DataTools.SqlBulkData/BulkRowReader.cs:45-50 | a field written as WriteColumn writes it reads back as the value, or DBNull for a null, ending after its bytes |
| Rows.NullsRoundTrip | DataTools.SqlBulkData/BulkRowWriter.cs:29-33 | the bitmap written for a record reads back as the record's null flags |
| Rows.PreambleReadsBack | DataTools.SqlBulkData/BulkRowReader.cs:29-37 | the padding, row marker, bitmap and padding written read back as the bitmap's null flags, ending after them |
| BulkRows.PreambleBadMarker | DataTools.SqlBulkData/BulkRowReader.cs:33 | a byte other than the row marker where a row should start fails with InvalidData |
| Rows.RowRoundTrip | DataTools.SqlBulkData/BulkRowReader.cs:27-43 | any row written by Write through sound serialisers reads back by MoveNext as the record (DBNull for nulls), ending where the writing ended |
| Rows.CodecRowRoundTrip | DataTools.SqlBulkData.UnitTests/BulkRowReaderWriterTests.cs:14-42 | the same for the library's own column serialisers |
| BulkRows.BulkRowWriter.constructor | DataTools.SqlBulkData/BulkRowWriter.cs:17-22 | keeps the stream and the columns and makes a fresh null-field map for them |
| BulkRows.BulkRowWriter.Write | DataTools.SqlBulkData/BulkRowWriter.cs:24-40 | the stream's new data, position and result are EmitRow's |
| BulkRows.BulkRowWriter.WritePreamble | DataTools.SqlBulkData/BulkRowWriter.cs:26-35 | writes EmitPreamble, and the map's flags are the record's DBNull flags |
| BulkRows.BulkRowWriter.WriteFields | DataTools.SqlBulkData/BulkRowWriter.cs:36-39 | the loop writes EmitFields |
| BulkRows.BulkRowWriter.WriteColumn | DataTools.SqlBulkData/BulkRowWriter.cs:42-46 | writes EmitColumn: nothing for an omitted null, otherwise the serialiser's bytes |
| BulkRows.BulkRowReader.constructor | DataTools.SqlBulkData/BulkRowReader.cs:19-25 | keeps the stream and columns, with an empty current row and a fresh null-field map |
| BulkRows.BulkRowReader.MoveNext | DataTools.SqlBulkData/BulkRowReader.cs:27-43 | result, position and current row are ParseRow's; the row is cleared when none is found |
| BulkRows.BulkRowReader.ReadPreamble | DataTools.SqlBulkData/BulkRowReader.cs:29-37 | result and position are ParsePreamble's, and the map holds the flags it read |
| BulkRows.BulkRowReader.ReadFields | DataTools.SqlBulkData/BulkRowReader.cs:38-41 | result, position and current row are ParseFields' |
| BulkRows.BulkRowReader.ReadColumn | DataTools.SqlBulkData/BulkRowReader.cs:45-50 | result and position are ParseColumn's |
| Columns.ToSqlDecimal | DataTools.SqlBulkData/Columns/SqlServerDecimalColumn.cs:44-49 | the decimal handed to the packer keeps its magnitude and scale, is valid, and a zero is positive |
| Columns.FromSqlDecimal | DataTools.SqlBulkData/Columns/SqlServerDecimalColumn.cs:57-62 | `SqlDecimal.Value` succeeds exactly when the magnitude fits 96 bits and the scale is at most 28, failing with Overflow, and keeps sign, magnitude and scale |
| Columns.SqlDecimalConversion | DataTools.SqlBulkData/Columns/SqlServerDecimalColumn.cs:44-62 | a decimal converted to SqlDecimal and back, at any valid precision, is the same decimal with a zero made positive |
| Columns.AsciiEncoded | DataTools.SqlBulkData/Columns/SqlServerFixedLengthANSIStringColumn.cs:51-52 | ASCII encoding gives one byte per character: its code below 0x80, '?' for every other character |
| Columns.AsciiDecoded | DataTools.SqlBulkData/Columns/SqlServerFixedLengthANSIStringColumn.cs:57-64 | ASCII decoding gives one character per byte: the byte below 0x80, '?' for every other byte |
| Columns.AsciiRoundTrip | DataTools.SqlBulkData/Columns/SqlServerFixedLengthANSIStringColumn.cs:51-63 | decoding a string's ASCII bytes gives it back with each non-ASCII character as '?'; an ASCII string comes back unchanged |
| Columns.Utf8Field | DataTools.SqlBulkData/Columns/SqlServerVariableLengthStringColumn.cs:28-32 | a string field (empty for a null) has UTF-8 bytes exactly when its encoding fits a byte array, and those bytes decode back to the string |
| Columns.NewFixedLengthBytesColumn | DataTools.SqlBulkData/Columns/SqlServerFixedLengthBytesColumn.cs:11-19 | a non-positive length fails with ArgumentOutOfRange; otherwise the serialiser has that length and the masked flags |
| Columns.NewFixedLengthANSIStringColumn | DataTools.SqlBulkData/Columns/SqlServerFixedLengthANSIStringColumn.cs:13-21 | a non-positive length fails with ArgumentOutOfRange; otherwise the serialiser has that length and the masked flags |
| Columns.NewDecimalColumn | DataTools.SqlBulkData/Columns/SqlServerDecimalColumn.cs:14-19 | a packer buffer that is not a multiple of four fails with Argument, a negative one with Overflow; otherwise the serialiser's length is the buffer size |
| Columns.FieldBytes | DataTools.SqlBulkData/Columns/IColumnSerialiser.cs:15 | a fixed-size field that can be written is exactly the serialiser's Length bytes; a decimal is packed with the corrected guard |
| Columns.AnsiField | DataTools.SqlBulkData/Columns/SqlServerFixedLengthANSIStringColumn.cs:40-55 | an ANSI field is exactly the column's length in bytes; a string gives one exactly when it has that many characters (a longer one fails with Argument, a shorter with InvalidData) |
| Columns.ParsePadded | DataTools.SqlBulkData/Columns/SqlServerDecimalColumn.cs:59-60 | an aligned fixed-length read yields exactly the requested number of bytes |
| Columns.Write | DataTools.SqlBulkData/Columns/IColumnSerialiser.cs:15 | the stream's new data, position and result are Emit's for that serialiser and value, a decimal packed with the corrected guard |
| Columns.WritePadded | DataTools.SqlBulkData/Columns/SqlServerDecimalColumn.cs:46-48 | writes EmitPadded: the alignment padding, then the field |
| Columns.WritePaddedDateTimeOffset | DataTools.SqlBulkData/Columns/SqlServerDateTimeOffsetColumn.cs:33-37 | writes EmitPaddedDateTimeOffset |
| Columns.WritePrefixed | DataTools.SqlBulkData/Columns/SqlServerVariableLengthBytesColumn.cs:40-41 | writes EmitPrefixed: the padding, the four-byte length and the bytes |
| Columns.PackField | DataTools.SqlBulkData/Columns/SqlServerDecimalColumn.cs:44-55 | the decimal field packed into the column's buffer is FieldBytes', under the corrected guard |
| Columns.Read | DataTools.SqlBulkData/Columns/IColumnSerialiser.cs:16 | result and position are Parse's for that serialiser; a variable-length string is the UTF-8 decoding of its bytes, a fixed-length one their ASCII decoding |
| Columns.ReadPadded | DataTools.SqlBulkData/Columns/SqlServerDecimalColumn.cs:59-60 | result and position are ParsePadded's |
| Columns.ReadPaddedDateTimeOffset | DataTools.SqlBulkData/Columns/SqlServerDateTimeOffsetColumn.cs:49-53 | result and position are ParsePaddedDateTimeOffset's |
| Columns.ReadPrefixed | DataTools.SqlBulkData/Columns/SqlServerVariableLengthBytesColumn.cs:44-48 | result and position are ParsePrefixed's |
| Columns.UnpackField | DataTools.SqlBulkData/Columns/SqlServerDecimalColumn.cs:57-62 | the value unpacked from the buffer is DecodeField's |
| Columns.FieldRoundTrip | DataTools.SqlBulkData/Columns/IColumnSerialiser.cs:15-16 | the bytes of any fixed-size field decode back to ReadBack: the value, or the column's placeholder for a null |
| Columns.SmallIntFieldRoundTrip | DataTools.SqlBulkData/Columns/SqlServerSmallIntColumn.cs:30-40 | an int16 field decodes back to the value written |
| Columns.FloatingPointFieldRoundTrip | DataTools.SqlBulkData/Columns/SqlServerSinglePrecisionColumn.cs:30-40 | a single- or double-precision field decodes back to the same bit pattern |
| Columns.GuidFieldRoundTrip | DataTools.SqlBulkData/Columns/SqlServerUniqueIdentifierColumn.cs:30-40 | a GUID field decodes back to the GUID written |
| Columns.TimeFieldRoundTrip | DataTools.SqlBulkData/Columns/SqlServerTimeColumn.cs:33-51 | a time or date-time field decodes back to the same ticks or binary value |
| Columns.DecimalFieldRoundTrip | DataTools.SqlBulkData/Columns/SqlServerDecimalColumn.cs:44-62 | a decimal the corrected packer accepts and that fits the reading precision decodes back to itself, a zero made positive |
| Columns.FixedLengthFieldRoundTrip | DataTools.SqlBulkData/Columns/SqlServerFixedLengthBytesColumn.cs:38-66 | a fixed-length field decodes back to the value cut to the field's length, a null to zeros or NUL characters, and ANSI text with non-ASCII characters as '?' |
| Columns.ByteRoundTrip | DataTools.SqlBulkData/Columns/SqlServerTinyIntColumn.cs:30-38 | a tinyint or bit field reads back as the value written, ending after its one byte |
| Columns.VariableLengthRoundTrip | DataTools.SqlBulkData/Columns/SqlServerVariableLengthBytesColumn.cs:29-48 | a variable-length bytes field, or a string field written as UTF-8 and decoded on reading, reads back as the value written (empty for a null), ending after it |
| Columns.MalformedStringReadsAsReplacement | DataTools.SqlBulkData/Columns/SqlServerVariableLengthStringColumn.cs:34-38 | the string field 01 00 00 00 FF reads as the one character U+FFFD, ending after its five bytes |
| Columns.DateTimeOffsetFieldRoundTrip | DataTools.SqlBulkData/Columns/SqlServerDateTimeOffsetColumn.cs:33-53 | a date-time-offset field reads back as the value written |
| Columns.RoundTrip | DataTools.SqlBulkData/Columns/IColumnSerialiser.cs:15-16 | for every serialiser, any value it writes at any position reads back as ReadBack, ending where the writing ended |
| ColumnDefinitions.DefinitionsValidate | DataTools.SqlBulkData/ColumnSerialiserValidator.cs:10-29 | every column definition, including the int and bigint columns, passes validation, except a decimal column whose buffer size is 0 |
| ColumnDefinitions.DecimalColumnForBufferSize | DataTools.SqlBulkData/Serialisation/DecimalPacker.cs:24-32 | a decimal column built from a stored length fails exactly when the length is negative or not a multiple of 4; otherwise its length is that size and its digit count the one the size holds |
| ColumnDefinitions.DecimalColumnForDigitCount | DataTools.SqlBulkData/Serialisation/DecimalPacker.cs:23-32 | a decimal column built from a precision has that digit count and a length of 4 to 132 bytes, the buffer size for the precision |
| ColumnDefinitions.PrecisionBufferSize | DataTools.SqlBulkData/Serialisation/DecimalPacker.cs:93-98 | for any SQL precision 0..255 the buffer size is between 4 and 132 bytes |
| ColumnSerialisers.SerialiserOf | DataTools.SqlBulkData/Columns/IColumnSerialiser.cs:12-16 | the serialiser of a column reports that column's flags |
| ColumnSerialisers.SerialiserOfSound | DataTools.SqlBulkData/Columns/IColumnSerialiser.cs:15-16 | the Write and Read of every column's serialiser are inverse: what Write lays down at an aligned position Read takes back, ending after it |
| ColumnSerialisers.SerialiserOfReadsBack | DataTools.SqlBulkData/Columns/IColumnSerialiser.cs:15-16 | reading a serialiser's own written bytes gives the read-back value and the position after them |
| ColumnSerialisers.Serialisers | DataTools.SqlBulkData/Columns/IColumnSerialiser.cs:8-17 | the serialisers of a column list correspond one to one with its columns |
| ColumnSerialisers.SerialisersSound | DataTools.SqlBulkData/Columns/IColumnSerialiser.cs:15-16 | every serialiser of a column list round-trips its values |
| SerialiserValidation.Validate | DataTools.SqlBulkData/ColumnSerialiserValidator.cs:10-29 | a serialiser is valid exactly when its data type classifies, a fixed-length type has a positive length and no unknown flag is set; an unclassifiable type is ArgumentOutOfRange, anything else InvalidSerialiser |
| SerialiserValidation.ValidateAgainst | DataTools.SqlBulkData/ColumnSerialiserValidator.cs:31-49 | a serialiser matches a stored column exactly when it is valid and its flags, data type and, for a fixed-length type, its length equal the column's; the first failing check decides the error |
| SerialiserValidation.CodecsValidate | DataTools.SqlBulkData/ColumnSerialiserValidator.cs:10-29 | every column serialiser of the model is valid except a decimal one with a zero buffer |
| SerialiserValidation.ValidatedAgainstDescriptor | DataTools.SqlBulkData/ColumnSerialiserValidator.cs:31-49 | a serialiser that matched a stored column has its flags and data type, and its length unless it is variable-length |
| DecimalPacking.NewSqlDecimal | DataTools.SqlBulkData/Serialisation/DecimalPacker.cs:76-77 | an SqlDecimal is built exactly when precision is 1..38, scale at most precision and the magnitude below 10^precision; a too-large magnitude is Overflow, a bad precision or scale SqlType; a zero is positive |
| DecimalPacking.ValidMagnitudeFits | DataTools.SqlBulkData/Serialisation/DecimalPacker.cs:43-44 | the magnitude of any valid SqlDecimal fits its 16 data bytes as a positive signed value |
| DecimalPacking.ByteBufferSize | DataTools.SqlBulkData/Serialisation/DecimalPacker.cs:93-98 | the buffer size for a digit count is always a whole number of 32-bit words |
| DecimalPacking.BitsForUnsignedIsCeiling | DataTools.SqlBulkData/Serialisation/DecimalPacker.cs:90 | the unsigned bit count of d digits is the least b with 10^d <= 2^b |
| DecimalPacking.BitsForSignedHoldsDigits | DataTools.SqlBulkData/Serialisation/DecimalPacker.cs:89 | the signed bit count of d digits holds every d-digit magnitude with a sign bit, and no fewer bits would |
| DecimalPacking.DigitCountIsCeiling | DataTools.SqlBulkData/Serialisation/DecimalPacker.cs:100-106 | the digit count of a buffer is the least k with 2^(8n-10) <= 10^k |
| DecimalPacking.BufferBitsRoom | DataTools.SqlBulkData/Serialisation/DecimalPacker.cs:93-98 | the buffer for d digits is at least 4 bytes and leaves room for the unsigned bits of d digits, a sign bit and the scale byte |
| DecimalPacking.ByteBufferSizeHolds | DataTools.SqlBulkData/Serialisation/DecimalPacker.cs:93-98 | every d-digit magnitude fits the significand of the buffer for d digits as a positive signed value |
| DecimalPacking.DigitCountOfByteBufferSize | DataTools.SqlBulkData/Serialisation/DecimalPacker.cs:91-106 | the digit count a buffer sized for d digits reports is at least d |
| DecimalPacking.ByteBufferSizeExamples | DataTools.SqlBulkData.UnitTests/Serialisation/DecimalPackerTests.cs:20-29 | 1 and 3 digits take 4 bytes, 7 and 16 digits take 8 |
| DecimalPacking.SixteenDigitBits | DataTools.SqlBulkData.UnitTests/Serialisation/DecimalPackerTests.cs:31-35 | sixteen decimal digits need 54 unsigned bits |
| DecimalPacking.DigitCountExamples | DataTools.SqlBulkData/Serialisation/DecimalPacker.cs:100-106 | a 4-byte buffer reports 7 digits, an 8-byte one 17 |
| DecimalPacking.PackedDecimal | DataTools.SqlBulkData/Serialisation/DecimalPacker.cs:41-56 | a successful pack fills exactly the packer's buffer size, at least 4 bytes (corrected guard: the significand's top bit must stay clear) |
| DecimalPacking.PackedDecimalAsWritten | DataTools.SqlBulkData/Serialisation/DecimalPacker.cs:41-56 | the pack as the source guards it also fills exactly the buffer size |
| DecimalPacking.UnpackedDecimal | DataTools.SqlBulkData/Serialisation/DecimalPacker.cs:61-78 | a successful unpack is a valid SqlDecimal |
| DecimalPacking.NegatedScaleInvolution | DataTools.SqlBulkData/Serialisation/DecimalPacker.cs:55-65 | the scale byte `1 + ~scale` read back the same way gives the scale |
| DecimalPacking.PackUnpack | DataTools.SqlBulkData/Serialisation/DecimalPacker.cs:41-78 | unpacking a packed decimal gives its sign, magnitude and scale with the packer's precision, max(scale, min(digit count, 38)) |
| DecimalPacking.RoundTripWithRoom | DataTools.SqlBulkData/Serialisation/DecimalPacker.cs:73-77 | when that precision holds the magnitude, unpack after pack is the decimal itself at that precision |
| DecimalPacking.ForDigitCountPacks | DataTools.SqlBulkData/Serialisation/DecimalPacker.cs:47-50 | a packer built for d digits packs every decimal of at most d digits |
| DecimalPacking.ForDigitCountRoundTrip | DataTools.SqlBulkData.UnitTests/Serialisation/DecimalPackerTests.cs:56-65 | pack then unpack on one ForDigitCount packer returns every decimal that fits, with precision max(scale, d) |
| DecimalPacking.ForBufferSizeRoundTrip | DataTools.SqlBulkData.UnitTests/Serialisation/DecimalPackerTests.cs:67-80 | a reader that builds its packer from the stored length gets back every decimal a ForDigitCount packer wrote |
| DecimalPacking.PackAsWrittenLosesSign | DataTools.SqlBulkData/Serialisation/DecimalPacker.cs:47-50 | as written, a 4-byte packer (7 digits) packs +9999999 as 7F 96 98 00, which unpacks as -6777217 |
| DecimalPacking.PackRefusesSignBit | DataTools.SqlBulkData/Serialisation/DecimalPacker.cs:47-50 | the corrected pack refuses +9999999 in 4 bytes with InvalidCast |
| DecimalPacking.PackExamples | DataTools.SqlBulkData.UnitTests/Serialisation/DecimalPackerTests.cs:20-44 | the source's 4-byte cases (9, -9, 999, -999, -0.494336) pack to the listed bytes |
| DecimalPacking.PackRejected | DataTools.SqlBulkData/Serialisation/DecimalPacker.cs:47-50 | with the sign-bit check added to the source guard (see Findings), a magnitude of 2^(8n-9) or more is refused with InvalidCast, where the source refuses only from 256^(n-1) |
| DecimalPacking.PackAccepted | DataTools.SqlBulkData/Serialisation/DecimalPacker.cs:52-55 | a smaller magnitude packs as its two's-complement significand followed by the negated scale |
| DecimalPacking.UnpackAccepted | DataTools.SqlBulkData/Serialisation/DecimalPacker.cs:61-78 | bytes whose high significand bytes are sign fill unpack to the significand's sign and magnitude and the negated scale byte |
| DecimalPacking.DecimalPacker.constructor | DataTools.SqlBulkData/Serialisation/DecimalPacker.cs:26-32 | a packer keeps the digit count and buffer size it was given |
| DecimalPacking.DecimalPacker.Create | DataTools.SqlBulkData/Serialisation/DecimalPacker.cs:26-32 | creating a packer fails with ArgumentException exactly when the buffer size is not a multiple of 4 |
| DecimalPacking.DecimalPacker.ForDigitCount | DataTools.SqlBulkData/Serialisation/DecimalPacker.cs:23 | a packer for d digits has d digits and the buffer size for d |
| DecimalPacking.DecimalPacker.ForBufferSize | DataTools.SqlBulkData/Serialisation/DecimalPacker.cs:24 | a packer for n bytes fails when n is not a multiple of 4, and otherwise has n bytes and the digit count n holds |
| DecimalPacking.DecimalPacker.CreateBuffer | DataTools.SqlBulkData/Serialisation/DecimalPacker.cs:34 | a new zeroed buffer of the packer's size, an overflow for a negative size |
| DecimalPacking.DecimalPacker.Pack | DataTools.SqlBulkData/Serialisation/DecimalPacker.cs:41-56 | packing writes the corrected PackedDecimal's bytes into the target, and a refused pack leaves the target unchanged |
| DecimalPacking.DecimalPacker.Unpack | DataTools.SqlBulkData/Serialisation/DecimalPacker.cs:61-78 | unpacking returns UnpackedDecimal of the bytes, overwriting the scale byte with the sign fill when it accepts them |
| DecimalPacking.DecimalPacker.HighBytesAreSign | DataTools.SqlBulkData/Serialisation/DecimalPacker.cs:67-70 | true exactly when every significand byte past the sixteenth is the sign fill |
| DecimalPacking.DecimalPacker.CheckPackable | DataTools.SqlBulkData/Serialisation/DecimalPacker.cs:44-50 | succeeds exactly when the corrected PackedDecimal does, with its error otherwise |
| DecimalPacking.DecimalPacker.MagnitudeFits | DataTools.SqlBulkData/Serialisation/DecimalPacker.cs:47-50 | true exactly when the magnitude is below 2^(8n-9), the corrected bound; the source's scan alone tests below 256^(n-1) |
| DecimalPacking.DecimalPacker.ZeroFrom | DataTools.SqlBulkData/Serialisation/DecimalPacker.cs:47-50 | the first non-zero data byte from a position on, or the end |
| DecimalPacking.DecimalPacker.StoreFitting | DataTools.SqlBulkData/Serialisation/DecimalPacker.cs:52-55 | a fitting decimal is stored as PackedDecimal's bytes |
| ColumnFlags.UnknownFlags | DataTools.SqlBulkData/PersistedModel/ColumnFlags.cs:18 | the unknown part of a flag set shares no bit with the defined flags |
| ColumnFlags.KnownFlags | DataTools.SqlBulkData/PersistedModel/ColumnFlags.cs:19 | the known part has only defined bits, and equals the whole set exactly when no unknown flag is set |
| ColumnFlags.Masked | DataTools.SqlBulkData/PersistedModel/ColumnFlags.cs:16-19 | dropping the unknown flags keeps both the nullable and the absent-when-null meanings |
| ColumnFlags.FlagMeanings | DataTools.SqlBulkData/PersistedModel/ColumnFlags.cs:9-21 | Nullable is the low bit; AbsentWhenNull needs both low bits and so implies Nullable |
| ColumnFlags.FlagValues | DataTools.SqlBulkData/PersistedModel/ColumnFlags.cs:18-23 | a flag set has no unknown flags exactly when it is below 4, and its known part always is |
| ColumnFlags.KnownAndUnknown | DataTools.SqlBulkData/PersistedModel/ColumnFlags.cs:18-19 | the known and unknown parts are disjoint and together make the whole set |
| ColumnFlags.ShortRoundTrip | DataTools.SqlBulkData/PersistedModel/ColumnFlags.cs:7 | a flag set survives storage as a signed 16-bit value |
| ColumnDataType.Classify | DataTools.SqlBulkData/PersistedModel/ColumnDataType.cs:64-90 | tags 1..12 classify and every other tag throws ArgumentOutOfRange; String and VariableLengthBytes are variable-length, FixedLengthString and FixedLengthBytes fixed-length buffers, the rest primitives |
| ColumnDataType.OrdinalsOrdered | DataTools.SqlBulkData/PersistedModel/ColumnDataTypeClassification.cs:8-15 | primitives order before fixed-length buffers, which order before variable-length ones; ordinals are distinct and only the variable-length class is not fixed-length |
| ColumnDescriptors.EqualIsValueEquality | DataTools.SqlBulkData/PersistedModel/ColumnDescriptor.cs:17-28 | the descriptor comparer is value equality of name, flags, index, type and length, hence an equivalence |
| ColumnDescriptors.Wrap32 | DataTools.SqlBulkData/PersistedModel/ColumnDescriptor.cs:32 | unchecked arithmetic keeps the value modulo 2^32 in the signed 32-bit range |
| ColumnDescriptors.EqualHashesEqual | DataTools.SqlBulkData/PersistedModel/ColumnDescriptor.cs:30-41 | equal descriptors hash alike, whatever the runtime's string and short hashes |
| Schema.Identify | DataTools.SqlBulkData/Schema/Table.cs:30 | a table's identifier fails exactly for a null name and otherwise carries that name |
| TableIdentifiers.NewTableIdentifier | DataTools.SqlBulkData/PersistedModel/TableIdentifier.cs:7-11 | a null name throws ArgumentNull; a null schema becomes empty; otherwise both parts are kept |
| TableIdentifiers.ToStringJoins | DataTools.SqlBulkData/PersistedModel/TableIdentifier.cs:16 | with parts that neither begin nor end with a dot, the text is "schema.name", or the name alone for the empty schema |
| TableIdentifiers.EqualIsEquivalence | DataTools.SqlBulkData/PersistedModel/TableIdentifier.cs:18-28 | identifier equality is an equivalence, Equals(object) agrees with it, and a null is unequal |
| TableIdentifiers.EqualHashesEqual | DataTools.SqlBulkData/PersistedModel/TableIdentifier.cs:30-36 | equal identifiers hash alike |
| TableIdentifiers.IgnoresCase | DataTools.SqlBulkData/PersistedModel/TableIdentifier.cs:18-22 | dbo.Table equals DBO.table, and not the schemaless Table |
| TableDescriptors.Identify | DataTools.SqlBulkData/PersistedModel/TableDescriptor.cs:14 | a descriptor's identifier fails exactly for a null name |
| TableDescriptors.IdentifyKeepsName | DataTools.SqlBulkData/PersistedModel/TableDescriptor.cs:13-14 | the identifier prints as the descriptor does and keeps its name |
| TableDescriptors.EqualIsValueEquality | DataTools.SqlBulkData/PersistedModel/TableDescriptor.cs:20-29 | the descriptor comparer is value equality of id, name and schema |
| TableDescriptors.EqualDescriptorsIdentifyEqually | DataTools.SqlBulkData/PersistedModel/TableDescriptor.cs:14-29 | equal descriptors have equal identifiers |
| TableDescriptors.EqualHashesEqual | DataTools.SqlBulkData/PersistedModel/TableDescriptor.cs:31-40 | equal descriptors hash alike |
| ForeignKeys.NewForeignKey | DataTools.SqlBulkData/Schema/ForeignKey.cs:5-20 | a new key enforces its constraint and replication, with NoAction rules and no description |
| ForeignKeys.ColumnsEquivalence | DataTools.SqlBulkData/Schema/ForeignKeyExactEqualityComparer.cs:26-29 | column lists compared pairwise ignoring case form an equivalence |
| ForeignKeys.SameConstraintEquivalence | DataTools.SqlBulkData/Schema/ForeignKeyFunctionalEqualityComparer.cs:24-30 | comparing name, tables and columns is an equivalence |
| ForeignKeys.ComparersAreEquivalences | DataTools.SqlBulkData/Schema/ForeignKeyExactEqualityComparer.cs:19-35 | both comparers are reflexive, symmetric and transitive |
| ForeignKeys.ExactRefinesFunctional | DataTools.SqlBulkData/Schema/ForeignKeyExactEqualityComparer.cs:30-33 | exact equality is functional equality plus equal enforcement switches and rules |
| ForeignKeys.FunctionalIgnoresBehaviour | DataTools.SqlBulkData/Schema/ForeignKeyFunctionalEqualityComparer.cs:20-32 | changing description, enforcement or rules keeps a key functionally equal; changing only the description keeps it exactly equal |
| ForeignKeys.NullsEqualOnlyNulls | DataTools.SqlBulkData/Schema/ForeignKeyExactEqualityComparer.cs:21-22 | a null equals only a null under either comparer |
| ForeignKeys.EqualKeysHashAlike | DataTools.SqlBulkData/Schema/ForeignKeyFunctionalEqualityComparer.cs:34-43 | keys equal under either comparer hash alike |
| ForeignKeys.CaseOfNamesIgnored | DataTools.SqlBulkData/Schema/ForeignKeyExactEqualityComparer.cs:23-29 | keys that differ only in the case of their name and columns are equal |
| ForeignKeys.ColumnCountCompared | DataTools.SqlBulkData/Schema/ForeignKeyExactEqualityComparer.cs:26-27 | keys whose column lists differ in length are unequal under both comparers |
| SqlServerDatabases.NormalisedLocal | DataTools.SqlBulkData/SqlServerDatabaseEqualityComparer.cs:21-26 | "(local)" reads as "localhost", "(local)\X" as "localhost\X", any other server as itself |
| SqlServerDatabases.NotLocal | DataTools.SqlBulkData/SqlServerDatabaseEqualityComparer.cs:21-26 | a server not starting with "(" is unchanged |
| SqlServerDatabases.LocalInstance | DataTools.SqlBulkData/SqlServerDatabaseEqualityComparer.cs:24 | a server beginning "(local)\" becomes "localhost" and the rest |
| SqlServerDatabases.NormaliseIdempotent | DataTools.SqlBulkData/SqlServerDatabaseEqualityComparer.cs:21-26 | normalising twice is normalising once |
| SqlServerDatabases.NormaliseRespectsCase | DataTools.SqlBulkData/SqlServerDatabaseEqualityComparer.cs:17-26 | servers equal ignoring case stay equal ignoring case after normalising |
| SqlServerDatabases.EqualIsEquivalence | DataTools.SqlBulkData/SqlServerDatabaseEqualityComparer.cs:11-19 | the database comparer is an equivalence |
| SqlServerDatabases.EqualHashesEqual | DataTools.SqlBulkData/SqlServerDatabaseEqualityComparer.cs:28-36 | equal databases hash alike |
| SqlServerDatabases.LocalIsLocalhost | DataTools.SqlBulkData.UnitTests/SqlServerDatabaseEqualityComparerTests.cs:9 | (local)/tempdb equals localhost/TEMPDB |
| SqlServerDatabases.LocalInstanceIsLocalhostInstance | DataTools.SqlBulkData.UnitTests/SqlServerDatabaseEqualityComparerTests.cs:11 | localhost\sqlexpress equals (local)\sqlexpress |
| SqlServerDatabases.LocalIsNotNamedInstance | DataTools.SqlBulkData.UnitTests/SqlServerDatabaseEqualityComparerTests.cs:17 | the default local instance differs from a named one |
| SqlServerDatabases.RemoteIsNotLocal | DataTools.SqlBulkData.UnitTests/SqlServerDatabaseEqualityComparerTests.cs:18 | a remote server differs from the local one |
| SqlServerDatabases.CatalogsCompared | DataTools.SqlBulkData.UnitTests/SqlServerDatabaseEqualityComparerTests.cs:20 | different catalogs on one server differ |
| TableFileNaming.NormaliseExtension | DataTools.SqlBulkData/TableFileNamingRule.cs:26-31 | the result is empty exactly when the extension is all dots, and otherwise one dot followed by the extension without its leading dots |
| TableFileNaming.NormaliseIdempotent | DataTools.SqlBulkData/TableFileNamingRule.cs:26-31 | normalising twice is normalising once |
| TableFileNaming.GetFileNameForTable | DataTools.SqlBulkData/TableFileNamingRule.cs:12-16 | naming fails with ArgumentException exactly for a null or empty table name |
| TableFileNaming.DotSuffix | DataTools.SqlBulkData/TableFileNamingRule.cs:24 | the suffix is a tail of the path that starts with its only dot and holds no separator |
| TableFileNaming.GetExtension | DataTools.SqlBulkData/TableFileNamingRule.cs:24 | a non-empty extension is a tail of the path: a dot and at least one further character, none a dot or separator |
| TableFileNaming.ExtensionOfSuffix | DataTools.SqlBulkData/TableFileNamingRule.cs:24 | a path ending in a dot and a plain word has that dot and word as its extension |
| TableFileNaming.FileNameRecognised | DataTools.SqlBulkData/TableFileNamingRule.cs:12-31 | the file a rule names for a table is one the same rule recognises |
| TableFileNaming.DefaultRuleNames | DataTools.SqlBulkData/TableFileNamingRule.cs:10-16 | under the default rule a table is written to "schema.name.bulktable" when the schema does not start and the name does not end with a dot, as dbo.Orders goes to "dbo.Orders.bulktable" |
| TableFileNaming.DefaultRuleRecognises | DataTools.SqlBulkData.UnitTests/TableFileNamingRuleTests.cs:29-34 | the default rule recognises every path ending in ".bulktable" |
| TableFileNaming.DefaultRuleIgnoresCompressed | DataTools.SqlBulkData/TableFileNamingRule.cs:24 | no path ending in ".bulktable.gz" is recognised, since only the last extension counts |
| ExportModelBuilders.InterpretField | DataTools.SqlBulkData/SqlServerExportModelBuilder.cs:70-146 | a field's column definition fails exactly for Variant, Udt, Structured and a Float longer than 8 or not positive (NotSupported), and for an undefined type or a non-positive fixed length (ArgumentOutOfRange) |
| ExportModelBuilders.InterpretNumeric | DataTools.SqlBulkData/SqlServerExportModelBuilder.cs:74-126 | a numeric field fails only when it is a Float whose length is not 1 to 8 bytes, with NotSupported |
| ExportModelBuilders.InterpretFixedBuffer | DataTools.SqlBulkData/SqlServerExportModelBuilder.cs:83-118 | a char, binary or timestamp field fails exactly when its length is not positive |
| ExportModelBuilders.InterpretedFieldShape | DataTools.SqlBulkData/SqlServerExportModelBuilder.cs:70-136 | numeric columns take Nullable, others AbsentWhenNull, each only when the field is nullable; fixed buffers take the field's length; a decimal is packed for the field's precision |
| ExportModelBuilders.InterpretedFieldsValidate | DataTools.SqlBulkData/SqlServerExportModelBuilder.cs:36-38 | every definition the builder chooses passes the serialiser validator |
| ExportModelBuilders.CreateExportField | DataTools.SqlBulkData/SqlServerExportModelBuilder.cs:34-44 | an export field keeps its field and index and takes the field's interpreted serialiser, failing with the interpretation's error |
| ExportModelBuilders.NonTimestamp | DataTools.SqlBulkData/SqlServerExportModelBuilder.cs:21 | dropping timestamp fields never lengthens the list |
| ExportModelBuilders.NonTimestampKeeps | DataTools.SqlBulkData/SqlServerExportModelBuilder.cs:21 | dropping timestamps removes every timestamp field and keeps every other field as often as it occurs |
| ExportModelBuilders.ExportFieldsCreated | DataTools.SqlBulkData/SqlServerExportModelBuilder.cs:20-24 | export fields are created, with consecutive indexes, exactly when every field interprets; otherwise the first failing field's error is raised |
| ExportModelBuilders.NoTimestamps | DataTools.SqlBulkData/SqlServerExportModelBuilder.cs:21 | a list with no timestamp field passes through unchanged |
| ExportModelBuilders.CompareAntisymmetric | DataTools.SqlBulkData/SqlServerExportModelBuilder.cs:155-179 | the alignment comparer is antisymmetric |
| ExportModelBuilders.CompareTransitive | DataTools.SqlBulkData/SqlServerExportModelBuilder.cs:155-179 | the alignment comparer is transitive |
| ExportModelBuilders.InsertPermutes | DataTools.SqlBulkData/SqlServerExportModelBuilder.cs:23 | inserting a field into the ordering adds exactly that field |
| ExportModelBuilders.InsertPacked | DataTools.SqlBulkData/SqlServerExportModelBuilder.cs:23 | inserting into a list in alignment order keeps it in alignment order |
| ExportModelBuilders.SortedByPacking | DataTools.SqlBulkData/SqlServerExportModelBuilder.cs:23 | the sort puts the fields in alignment order and is a permutation of them |
| ExportModelBuilders.CompareDistinct | DataTools.SqlBulkData/SqlServerExportModelBuilder.cs:176-177 | fields with different indexes never compare equal |
| ExportModelBuilders.PackedOrderUnique | DataTools.SqlBulkData/SqlServerExportModelBuilder.cs:23 | two alignment-ordered permutations of fields with distinct indexes are the same list, so the order is fully determined |
| ExportModelBuilders.LengthForDescriptor | DataTools.SqlBulkData/SqlServerExportModelBuilder.cs:58-68 | a fixed-length column stores the serialiser's length, a variable-length one the field's declared length |
| ExportModelBuilders.CompareMatchesDescriptors | DataTools.SqlBulkData/SqlServerExportModelBuilder.cs:157-178 | a field sorts before another exactly when its descriptor packs before the other's |
| ExportModelBuilders.Descriptors | DataTools.SqlBulkData/SqlServerExportModelBuilder.cs:30 | one descriptor per export field, in the same order |
| ExportModelBuilders.Serialisers | DataTools.SqlBulkData/SqlServerExportModelBuilder.cs:31 | one serialiser per export field, in the same order |
| ExportModelBuilders.BuildOutcome | DataTools.SqlBulkData/SqlServerExportModelBuilder.cs:17-24 | the build fails with ArgumentException for more than 32767 fields, and otherwise succeeds exactly when every non-timestamp field interprets, failing with the error of one that does not |
| ExportModelBuilders.ExportFieldsOf | DataTools.SqlBulkData/SqlServerExportModelBuilder.cs:20-22 | the export fields are the kept fields, each with its index in the kept list |
| ExportModelBuilders.Indexes | DataTools.SqlBulkData/SqlServerExportModelBuilder.cs:54 | the original indexes of a descriptor list, one per descriptor |
| ExportModelBuilders.PackedFieldsOf | DataTools.SqlBulkData/SqlServerExportModelBuilder.cs:20-24 | the sorted fields are the kept fields in some order, each index present |
| ExportModelBuilders.BuildColumns | DataTools.SqlBulkData/SqlServerExportModelBuilder.cs:17-32 | the model carries the id, a descriptor of the table with an empty schema for a null one, and for every kept field exactly one column whose serialiser is its definition, whose descriptor describes it and which validates against that descriptor |
| ExportModelBuilders.ValidatesAgainstOwnDescriptor | DataTools.SqlBulkData/SqlServerExportModelBuilder.cs:47-56 | each column's serialiser validates against the descriptor built from it |
| ExportModelBuilders.BuildPacked | DataTools.SqlBulkData/SqlServerExportModelBuilder.cs:23-30 | the built descriptors are in alignment order: classification ascending, fixed length descending, original index ascending |
| ExportModelBuilders.PacksColumnsByAlignment | DataTools.SqlBulkData.UnitTests/SqlServerExportModelBuilderTests.cs:54-80 | Int32, Int64, Byte, String, Fixed String, Int16 are stored as Int64, Int32, Int16, Byte, Fixed String, String |
| ExportModelBuilders.Names | DataTools.SqlBulkData.UnitTests/SqlServerExportModelBuilderTests.cs:72 | the original names of a descriptor list, one per descriptor |
| FieldCorrelation.TargetFieldsMatch | DataTools.SqlBulkData/StrictFieldNameCorrelator.cs:13-16 | the target fields of a column are exactly the fields whose names equal its original name ignoring case |
| FieldCorrelation.TargetFieldsCounted | DataTools.SqlBulkData/StrictFieldNameCorrelator.cs:13-16 | each matching field is kept as often as it occurs among the targets, every other field not at all |
| FieldCorrelation.TargetFieldsInOrder | DataTools.SqlBulkData/StrictFieldNameCorrelator.cs:15 | matching fields keep the order they have among the targets |
| FieldCorrelation.PrefixOfAll | DataTools.SqlBulkData/StrictFieldNameCorrelator.cs:15 | the matches among a prefix of the targets begin the matches among all of them |
| FieldCorrelation.OnUnallocatedTargetFields | DataTools.SqlBulkData/StrictFieldNameCorrelator.cs:18-22 | nothing happens for an empty list of unallocated fields; any other list raises UncorrelatedFieldsException |
| ImportModelBuilders.InterpretDescriptor | DataTools.SqlBulkData/SqlServerImportModelBuilder.cs:60-97 | a definition built for a stored column has the column's data type and its flags less any unknown bits |
| ImportModelBuilders.InterpretDescriptorOutcome | DataTools.SqlBulkData/SqlServerImportModelBuilder.cs:60-97 | a stored column is interpreted exactly when its type is importable at its length; the definition keeps the stored length except for floats (4 or 8) and strings; the refusals are NotSupported, ArgumentOutOfRange, or the decimal packer's Argument or Overflow, as each case throws |
| ImportModelBuilders.InterpretedValidation | DataTools.SqlBulkData/SqlServerImportModelBuilder.cs:34-36 | an interpreted definition validates against its stored column exactly when the column has no unknown flag, a float is 4 or 8 bytes and a decimal has a positive length |
| ImportModelBuilders.ImportOfExport | DataTools.SqlBulkData/SqlServerImportModelBuilder.cs:60-97 | every column the export builder writes, except variable-length bytes and the date, time and GUID types, is read back by a definition with the same metadata that validates against the written descriptor, and a decimal one with at least the written digit count |
| ImportModelBuilders.WritableFields | DataTools.SqlBulkData/SqlServerImportModelBuilder.cs:18-20 | the writable fields are the target table's fields that are neither timestamps nor computed |
| ImportModelBuilders.CreateImportField | DataTools.SqlBulkData/SqlServerImportModelBuilder.cs:32-44 | an import field is created exactly when the column interprets and validates against its descriptor, and it carries the column's index, target fields, descriptor and definition |
| ImportModelBuilders.ImportFieldsCreated | DataTools.SqlBulkData/SqlServerImportModelBuilder.cs:21 | import fields are created for all columns, in order, exactly when every column is accepted, and otherwise the first refused column's error is raised |
| ImportModelBuilders.AllocatedIn | DataTools.SqlBulkData/SqlServerImportModelBuilder.cs:23 | a field is allocated exactly when some import field targets it |
| ImportModelBuilders.Unallocated | DataTools.SqlBulkData/SqlServerImportModelBuilder.cs:23 | a field is in the result exactly when it is writable and no import field targets it, and no field appears twice |
| ImportModelBuilders.CreateMetaInfo | DataTools.SqlBulkData/SqlServerImportModelBuilder.cs:47-58 | a column's meta info names the target field, takes the source column's index, and uses the lower-cased CLR type name of its serialiser |
| ImportModelBuilders.FieldMetaInfos | DataTools.SqlBulkData/SqlServerImportModelBuilder.cs:29 | one meta info per target field of an import field, in order |
| ImportModelBuilders.MetaInfosIn | DataTools.SqlBulkData/SqlServerImportModelBuilder.cs:29 | the meta infos of the model are exactly those of its import fields |
| ImportModelBuilders.Serialisers | DataTools.SqlBulkData/SqlServerImportModelBuilder.cs:28 | one serialiser per import field, in order |
| ImportModelBuilders.AllocatedIffTaken | DataTools.SqlBulkData/SqlServerImportModelBuilder.cs:23 | a writable field is allocated exactly when some source column's name matches it |
| ImportModelBuilders.BuildOutcome | DataTools.SqlBulkData/SqlServerImportModelBuilder.cs:16-45 | the build succeeds exactly when every column is accepted, every writable field is matched and the table has a name; otherwise the first refused column's error, then UncorrelatedFieldsException, then ArgumentNullException |
| ImportModelBuilders.BuildFields | DataTools.SqlBulkData/SqlServerImportModelBuilder.cs:16-45 | a built model's serialisers and meta infos come from one import field per source column, in source order, and its table is the table's identifier |
| ImportModelBuilders.BuildSerialisers | DataTools.SqlBulkData.UnitTests/SqlServerImportModelBuilderTests.cs:74-95 | a built model has one serialiser per source column, in source order, each the column's interpretation and validating against it |
| ImportModelBuilders.BuildMetaInfoFor | DataTools.SqlBulkData.UnitTests/SqlServerImportModelBuilderTests.cs:97-132 | a built model has a meta info naming a field with source index i exactly when column i exists and a writable field of that name matches it |
| ImportModelBuilders.BuildMetaInfoTypes | DataTools.SqlBulkData/SqlServerImportModelBuilder.cs:47-58 | every meta info refers to an existing column and carries the CLR type of that column's serialiser, with its lower-cased name |
| ArgumentParsing.ProgramSubjectDatabase.constructor | DataTools.SqlBulkData/ProgramSubjectDatabase.cs:5-6 | a new subject database is tempdb on (local) |
| ArgumentParsing.Program.constructor | DataTools.SqlBulkData/Program.cs:25-27 | a new program has no mode, no files path and the default subject database |
| ArgumentParsing.FilesPath | DataTools.SqlBulkData/ArgumentParser.cs:38 | the files path is the full path with exactly one trailing directory separator, or fails with the full-path resolver's exception |
| ArgumentParsing.Parsed | DataTools.SqlBulkData/ArgumentParser.cs:9-45 | every error a parse ends with is InvalidArgumentsException or the exception resolving the full path of one of the arguments throws |
| ArgumentParsing.Parse | DataTools.SqlBulkData/ArgumentParser.cs:9-45 | parsing leaves the program's settings as the argument-by-argument reading gives them and fails exactly when that reading raises, with its error, the full-path resolver's exception included |
| ArgumentParsing.FinishedParseHasMode | DataTools.SqlBulkData/ArgumentParser.cs:14-22 | a parse that completes has set a mode |
| ArgumentParsing.FilesPathEndsInOneSeparator | DataTools.SqlBulkData/ArgumentParser.cs:35-39 | after any parse the files path, when set, ends in one separator |
| ArgumentParsing.ParsedConcatenation | DataTools.SqlBulkData/ArgumentParser.cs:11-43 | parsing two argument lists one after the other is parsing them joined |
| ArgumentParsing.RepeatedOptionOverwrites | DataTools.SqlBulkData/ArgumentParser.cs:25-34 | a server or database option given twice keeps the last value |
| ArgumentParsing.ParserCases | DataTools.SqlBulkData.UnitTests/ArgumentParserTests.cs:8-29 | "import" sets the mode, "-s localhost" the server; no mode, an option before the mode and a missing server name each raise InvalidArgumentsException |
| ArgumentParsing.EmptyFilesValueEscapes | DataTools.SqlBulkData/ArgumentParser.cs:35-38 | an empty files value ends the parse with the ArgumentException Path.GetFullPath throws, which is not an InvalidArgumentsException |
| OrdinalText.Folded | DataTools.SqlBulkData/PersistedModel/TableIdentifier.cs:20-21 | case folding maps each character to its upper-case form, keeping the length |
| OrdinalText.Lowered | DataTools.SqlBulkData/SqlServerImportModelBuilder.cs:57 | lower-casing maps each character to its lower-case form, keeping the length |
| OrdinalText.EqualsIgnoreCaseCharwise | DataTools.SqlBulkData/PersistedModel/TableIdentifier.cs:20-21 | two strings are equal ignoring case exactly when they have the same length and agree character by character after folding |
| OrdinalText.IgnoreCaseEquivalence | DataTools.SqlBulkData/Schema/ForeignKeyExactEqualityComparer.cs:17 | the case-insensitive comparison of possibly-null strings is an equivalence |
| OrdinalText.IgnoreCaseHashConsistent | DataTools.SqlBulkData/PersistedModel/TableIdentifier.cs:34 | strings equal ignoring case hash alike under the case-insensitive hash |
| OrdinalText.TrimStart | DataTools.SqlBulkData/TableFileNamingRule.cs:28 | TrimStart removes exactly the leading run of the character |
| OrdinalText.TrimEnd | DataTools.SqlBulkData/PersistedModel/TableIdentifier.cs:16 | TrimEnd removes exactly the trailing run of the character |
| OrdinalText.Trim | DataTools.SqlBulkData/PersistedModel/TableIdentifier.cs:16 | Trim leaves a string that neither begins nor ends with the character, and nothing when the string was all of it |
| OrdinalText.TrimUntouched | DataTools.SqlBulkData/PersistedModel/TableIdentifier.cs:16 | a string that neither begins nor ends with the character is not changed by trimming |

## Left out

- Floating point: the single- and double-precision codecs and Serialiser's Read/WriteSingle/Double carry IEEE 754 values; the model keeps their column metadata and treats their bytes as opaque.
- DecimalPacker's logarithm constants are replaced by their exact integer meaning (the least bit count whose powers of two reach the digit count's powers of ten, and back); the floating-point arithmetic is not modelled.
- Foreign conversions: DateTime.ToBinary, Guid.ToByteArray and the SqlDecimal internals are taken as given. A date is its 64-bit binary form, a GUID is 16 opaque bytes, and a decimal is its precision, scale, sign and magnitude.
- Columns.DateTimeOffsetField: a DateTime given to a DateTimeOffset column would take the machine's local time-zone offset; the model answers Unmodelled for it.
- Utf8: strings are sequences of Unicode scalar values, so a .NET string holding a lone surrogate, which the encoder replaces by EF BF BD, cannot be written down.
- OrdinalText.Folded: ordinal case-insensitive comparison and hashing fold ASCII letters only, not the whole of Unicode.
- ReservedFields: the generic ReservedField is modelled only for the 64-bit integer the chunk writer reserves.
- Columns: the fixed-length byte-array codec gives back a fresh value on each read, while the source hands out one buffer it refills, so aliasing between successive reads is not captured.
- Serialiser.Emitted and Serialiser.Agrees: on failure they say nothing of the stream's data and position, so partially written or partially read values are not captured.
- Streams: the stream is a MemoryStream (overwrite, extend, zero-fill a gap); a zero-length write changes nothing. Every modelled stream is readable, since RangeStream refuses an unreadable one with ArgumentException. PositionTrackingReadOnlyStream and FastReadOnlyStream are not part of this model; an unseekable stream is a flag with no length.
- RangeStreams: Seek with SeekOrigin.End is not modelled. It clamps the offset into the window and seeks the underlying stream to startPosition + length - clampedEndOffset, passing the End origin on unchanged.
- RangeStreams.ValidateRange: the source adds startPosition and length as 64-bit longs; a sum past 2^63-1 wraps negative and passes the length check, where the model refuses it. Only a corrupt chunk header carries such lengths.
- ChunkedFileReaders.ParseChunkHeader: endOffset is the exact sum of the chunk's start and length, where the source's 64-bit sum wraps negative past 2^63-1.
- ChunkedFileReaders.LengthPastEndRefused: states the refusal for the exact sum. For a length whose 64-bit sum with the data's start passes 2^63-1 the source's sum wraps negative and the range is accepted, so there the lemma describes the model, not the source.
- Columns.Value: a string is a sequence of Unicode scalar values, and ASCII encoding gives one '?' per scalar value, so a character outside the Basic Multilingual Plane counts as one character where .NET sees two UTF-16 code units.
- The leaveOpen switch and the disposal of the underlying stream by BulkTableFileWriter and BulkTableFileReader (DataTools.SqlBulkData/BulkTableFileWriter.cs:66-72, DataTools.SqlBulkData/BulkTableFileReader.cs:112-118) are not modelled. The chunk writer's own Dispose, which back-patches the length, is modelled.
- Gzip: detecting and decompressing gzipped input is not in the reader modelled here. A "….bulktable.gz" path is not recognised by TableFileNaming.IsTableFilePath, which follows the code of TableFileNamingRule.cs:24 rather than a test that expects a match.
- The paranoid alignment checks, a debug-build switch, are always on and answer InvalidOperation; the thread-local scratch buffers become local values.
- The integer and big-integer column serialisers are not part of this model beyond their descriptors (data type, length, flags).
- Table GUID policies (name-based with SHA-256, random) are not modelled; a table's id is a parameter of the export model builder.
- Database access, SQL statements and queries, the export and import jobs, cancellation, and the bulk-copy row sources are I/O and concurrency, and are not part of this model. The database comparer works on a database's data source and initial catalog, not on a parsed connection string.
- SqlDbTypeInterpreter, LoggingVerbosity, Program's console output and exit codes, connection-string building and the usage text are foreign-library or console code, and are not part of this model. Listing table files in a directory is directory I/O.
- ArgumentParsing: Enum.TryParse, Path.GetFullPath and the directory separator are parameters (an Environment); which paths GetFullPath refuses is the runtime's, and its exception comes back as the parameter's Failure.
- ArgumentParsing.Parsed: its own ensures states only which exceptions can end a parse; what a successful parse yields is stated by the lemmas beside it. Program.Main, which catches only InvalidArgumentsException and so lets the full-path exception escape, is console code and not part of this model.
- BulkTableFileReaders.BulkTableFileReader.BeginReadBulkData: the table's data stream is a window over the file's stream, not a window over the chunk's own range stream. The model does not capture that the next MoveNext disposes the chunk's range, and with it the previous table's data stream; in the model an earlier data stream stays readable.
- DecimalPacking.DecimalPacker.Pack: packs with the corrected guard of the Findings row, so it refuses the magnitudes from 2^(8n-9) up to 256^(n-1) that DecimalPacker.cs:47-50 packs into a negative-looking significand; the code as written is PackedDecimalAsWritten.
- DecimalPacking.DecimalPacker.CheckPackable: applies the corrected guard, not only the scan of DecimalPacker.cs:47-50.
- DecimalPacking.DecimalPacker.MagnitudeFits: tests the corrected bound 2^(8n-9); the source's scan alone tests 256^(n-1).
- DecimalPacking.PackRejected: states the refusal under the corrected guard; the source refuses only magnitudes of 256^(n-1) or more.
- Columns.FieldBytes: a decimal field is packed with the corrected guard, so the decimal values the source writes with a flipped sign are refused here.
- Columns.PackField: packs with the corrected guard, as Columns.FieldBytes does.
- Columns.Write: inherits the corrected decimal guard of Columns.FieldBytes.
- Columns.DecimalFieldRoundTrip: holds for the corrected packer; with the source's guard a ForBufferSize(4) column writes +9999999 and reads back -6777217 (DecimalPacking.PackAsWrittenLosesSign).
- Columns.RoundTrip: its decimal case rests on the corrected guard, as Columns.DecimalFieldRoundTrip does.
- ColumnSerialisers.SerialiserOfSound: its decimal case rests on the corrected guard, as Columns.DecimalFieldRoundTrip does.
- ForeignKeys: the column arrays of a foreign key are taken to be present (not null); reference identity and the type test of the comparers' Equals become structural equality.
- Schema: the schema types (tables, fields, data types with length and precision) are modelled only as far as the model builders read them.

## Findings

| source | as written | input that shows it | evidently intended | confidence | as-written member | corrected member |
|---|---|---|---|---|---|---|
| DataTools.SqlBulkData/Serialisation/DecimalPacker.cs:47-50 | Pack checks only that the magnitude's bytes from the significand size on are zero, so a magnitude whose top significand bit is set is stored and read back as negative | a packer made by ForBufferSize(4), which claims 7 digits, packing +9999999 at scale 0: it stores 7F 96 98 00, which Unpack reads as -6777217 | also refuse a magnitude whose top stored bit, the sign bit, would be set | not executed | DecimalPacking.PackAsWrittenLosesSign | DecimalPacking.PackRefusesSignBit |
