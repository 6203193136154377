# riff-wave-reader header decoder, in Dafny

This project models `RiffWaveReader::new` of the Rust crate riff-wave-reader.
It reads the header of a RIFF/WAVE stream in this order:

- the 12-byte `RIFF` header, rejected unless it says `RIFF` and then `WAVE`;
- the `fmt ` chunk, with its optional extension (`WAVE_FORMAT_EXTENSIBLE`);
- an optional `fact` chunk;
- any number of other chunks, up to the `data` tag;
- the 8-byte `data` header, after which the stream holds the audio samples.

The model has three layers, plus a set of encoders:

- **Decoder functions.** Module `Parse` states the decoding protocol as pure
  functions of the input bytes and a cursor. Each function returns the
  decoded value with the cursor after it, or the error that ends the decode.
- **Reader methods.** Module `Reader` holds the reader itself: class `Stream`
  (a seekable in-memory stream, with the `ReadExt` helpers as methods that
  advance its cursor) and class `RiffWaveReader` (`new` and `data`). Each
  method is proved to compute exactly what the matching `Parse` function
  describes, on the stream's bytes and the cursor it started from.
- **Primitives.** Module `LittleEndian` holds the fixed-width integers and
  their little-endian reads. Module `Riff` holds the FourCC and format
  classifiers, the chunk records and the error type.
- **Encoders.** Module `Serialize` writes each chunk header back. It proves
  two things per chunk, and for a whole header:
  - decoding what was written gives it back;
  - writing back what was decoded reproduces the bytes that were read, with
    the exceptions the decoder's own lossy steps force.

Design points the model makes explicit:

- The reader ignores the `fmt ` chunk's `data_size` when deciding whether an
  extension follows. It peeks at the next four bytes: a known tag means there is no extension.
  Anything else is taken as a 2-byte extension size followed by the
  extension.
- The `fact` chunk is likewise detected by peeking at its tag.
- The reader skips no pad byte after an odd-sized chunk other than `data`.
  The model follows the code here.
- `Data` (capital D) is accepted as a spelling of the `data` tag.
- A `fmt ` chunk whose 16-byte body has no extension size field (cbSize),
  followed by a chunk with an unknown tag such as `LIST`, has the first two
  bytes of that tag read as an extension size. The model follows the code
  here too. When the body is 18 bytes with an explicit extension size 0,
  the peek sees two zero bytes, which are never a tag, so the size is read
  as 0 and the unknown chunk after it is decoded as an ordinary chunk.
  There are two document-level round trips, one per layout. The 16-byte
  form needs a known tag after the `fmt ` chunk. The 18-byte form has no
  condition on what follows.

## Model

| member | source | states |
|---|---|---|
| LittleEndian.FromLEOfToLE | src/lib.rs:232-254 | Reading back the n-byte little-endian encoding of any v below 256^n gives v. |
| LittleEndian.ToLEOfFromLE | src/lib.rs:232-254 | Encoding the little-endian value of any byte string at its own width gives the string back. |
| LittleEndian.U16LEIsFromLE | src/lib.rs:240-246 | `read_u16` takes the first byte as the low one: it equals the general little-endian value. |
| LittleEndian.U32LEIsFromLE | src/lib.rs:232-238 | `read_u32` equals the general little-endian value of its four bytes. |
| LittleEndian.U16Bytes | src/lib.rs:240-246 | The two bytes written for v are read back as v. |
| LittleEndian.U32Bytes | src/lib.rs:232-238 | The four bytes written for v are read back as v. |
| LittleEndian.U128Bytes | src/lib.rs:248-254 | The sixteen bytes written for v are read back as v. |
| LittleEndian.U16BytesOfU16LE | src/lib.rs:240-246 | Reading two bytes and writing the value back reproduces them, so no 16-bit read loses information. |
| LittleEndian.U32BytesOfU32LE | src/lib.rs:232-238 | The same for 32-bit reads. |
| LittleEndian.U128BytesOfU128LE | src/lib.rs:248-254 | The same for 128-bit reads. |
| Riff.FourCCOfCases | src/lib.rs:329-345 | `FourCC::from` gives Riff, Wave, Fmt or Fact exactly for their spellings, and Data exactly for `data` or `Data`. Every other string gives Other, keeping its bytes. |
| Riff.FourCCOfTagBytes | src/lib.rs:329-345 | Classifying the bytes of any FourCC the classifier can produce gives that FourCC back. |
| Riff.TagBytesOfFourCCOf | src/lib.rs:329-345 | Classifying four bytes and writing the result back reproduces them, except that `Data` comes back as `data`. |
| Riff.FormatOf | src/lib.rs:357-368 | `Format::from` names code 1, 3, 6, 7 and 65534, each if and only if it is that code. Every other code is Other and keeps the code. |
| Riff.FormatCodeOfFormatOf | src/lib.rs:357-368 | The classified format gives back the code it came from. |
| Riff.FormatOfFormatCode | src/lib.rs:357-368 | Every format the classifier can produce is the classification of its code. |
| Parse.ReadBytesConsecutive | src/lib.rs:154-156 | Two `read_exact` calls of n and m bytes in a row succeed if and only if one call of n + m bytes does. Their bytes, joined, are that call's bytes, and they end at the same place. |
| Parse.ReadFourCC | src/lib.rs:224-230 | Succeeds if and only if four bytes remain, yielding their classification and moving past them. Otherwise an I/O error. |
| Parse.ReadU16 | src/lib.rs:240-246 | Succeeds if and only if two bytes remain, yielding their little-endian value. Otherwise an I/O error. |
| Parse.ReadU32 | src/lib.rs:232-238 | The same with four bytes. |
| Parse.ReadU128 | src/lib.rs:248-254 | The same with sixteen bytes. |
| Parse.ReadIsFourCC | src/lib.rs:256-265 | Succeeds if and only if four bytes remain. It answers true exactly for a known tag, and leaves the cursor where it was. |
| Parse.ParseRiffChunk | src/lib.rs:94-104 | Succeeds if and only if 12 bytes remain. It yields the classified tag, the little-endian size and the classified form type, unvalidated, and moves 12 bytes on. |
| Parse.ParseExtendedInfo | src/lib.rs:141-164 | Size 0 gives no extension without moving. A size from 1 to 21 is InvalidExtendedInfo. Otherwise it succeeds if and only if `size` bytes remain, yielding the three fields and `size - 22` verbatim bytes. |
| Parse.ParseFmtExtension | src/lib.rs:120-125 | A known tag ahead means size 0, no extension, and the cursor stays. Otherwise the next two bytes are the size and the extension follows. It fails exactly when the size is from 1 to 21 or the bytes run out. |
| Parse.ParseFmtChunk | src/lib.rs:106-139 | It is InvalidFmtChunk if and only if the tag is not `fmt `. On success the seven fields are read little-endian from fixed offsets and the format is classified. The size and the extension come from the extension decision, and when that decision fails its error is passed on unchanged. |
| Parse.ParseFactChunk | src/lib.rs:166-185 | Without a `fact` tag there is no chunk and the cursor stays. With one, the size, the sample length and `size - 4` verbatim bytes are read, and a size below 4 is InvalidFactChunk. It is the corrected decoder of the finding below. |
| Parse.ReadOtherChunk | src/lib.rs:189-208 | One loop round. It returns None exactly when the next tag is `data`/`Data`, and otherwise one chunk, exactly when its tag, size and payload fit. The chunk is the tag, the size and `size` payload bytes, and is never `data`. |
| Parse.ParseOtherChunks | src/lib.rs:188-209 | Rounds until a `data` tag. On success the cursor is left in front of that tag. |
| Parse.OtherChunksAreWellFormed | src/lib.rs:188-209 | Every collected chunk has a payload exactly as long as its declared size, a classifier-produced tag, and is not `data`. |
| Parse.PadByte | src/lib.rs:215 | The pad byte is the parity of the data size. |
| Parse.ParseDataChunk | src/lib.rs:211-222 | Succeeds if and only if 8 bytes remain. It yields the tag, the size and its parity as pad byte, and moves 8 bytes on. |
| Parse.Decode | src/lib.rs:21-51 | Fewer than 12 bytes is an I/O error. NotRiff if and only if the first tag is not `RIFF`, NotWave if and only if it is but the form type is not `WAVE`, InvalidFmtChunk if and only if the header checks pass and the next tag is not `fmt `. InvalidExtendedInfo if and only if, in addition, the tag is `fmt ` and the extension decision 24 bytes after it fails with InvalidExtendedInfo (a declared extension size from 1 to 21). Success ends at least 44 bytes on, with a document satisfying ValidDocument. |
| Parse.DecodeChunks | src/lib.rs:32-39 | After a checked header, InvalidFmtChunk exactly when the tag ahead is not `fmt `, and InvalidExtendedInfo exactly when it is `fmt ` and the extension decision fails with InvalidExtendedInfo. Success keeps the header and yields a valid document. |
| Parse.DecodeAfterFmt | src/lib.rs:34-39 | The fact, other and data steps in order. It fails only with InvalidFactChunk or an I/O error, and on success keeps the given header and `fmt ` chunk. |
| Reader.Stream.ReadExact | src/lib.rs:154-156 | Result and new cursor are those of Parse.ReadBytes on the stream's bytes. |
| Reader.Stream.ReadFourCC | src/lib.rs:224-230 | Agrees with Parse.ReadFourCC. |
| Reader.Stream.ReadU16 | src/lib.rs:240-246 | Agrees with Parse.ReadU16. |
| Reader.Stream.ReadU32 | src/lib.rs:232-238 | Agrees with Parse.ReadU32. |
| Reader.Stream.ReadU128 | src/lib.rs:248-254 | Agrees with Parse.ReadU128. |
| Reader.Stream.ReadIsFourCC | src/lib.rs:256-265 | Agrees with Parse.ReadIsFourCC, seeking back over the tag it read. |
| Reader.Stream.ReadRiffChunk | src/lib.rs:94-104 | Agrees with Parse.ParseRiffChunk. |
| Reader.Stream.ReadExtendedInfo | src/lib.rs:141-164 | Agrees with Parse.ParseExtendedInfo. InvalidExtendedInfo is returned before any byte is read. |
| Reader.Stream.ReadFmtChunk | src/lib.rs:106-139 | Agrees with Parse.ParseFmtChunk. On InvalidFmtChunk the cursor is just past the four tag bytes it rejected. On InvalidExtendedInfo it is just past the extension size, 26 bytes on. |
| Reader.Stream.ReadFmtExtension | src/lib.rs:120-125 | Agrees with Parse.ParseFmtExtension. On InvalidExtendedInfo the cursor is just past the 2-byte size. |
| Reader.Stream.ReadFactChunk | src/lib.rs:166-185 | Agrees with Parse.ParseFactChunk, including the seek back when the tag is not `fact`. |
| Reader.Stream.ReadOtherChunk | src/lib.rs:189-208 | Agrees with one round, Parse.ReadOtherChunk. On `data` the cursor is put back where it was. |
| Reader.Stream.ReadOtherChunks | src/lib.rs:188-209 | The loop pushes onto the caller's vector: what was there stays as a prefix. Result, pushed chunks and cursor agree with Parse.ParseOtherChunks. |
| Reader.Stream.ReadChunks | src/lib.rs:32-39 | Agrees with Parse.DecodeChunks. On InvalidFmtChunk the cursor is 4 bytes on, and on InvalidExtendedInfo 26 bytes on. |
| Reader.Stream.ReadAfterFmt | src/lib.rs:34-39 | Agrees with Parse.DecodeAfterFmt. The other chunks are collected into a fresh vector. |
| Reader.Stream.ReadDataChunk | src/lib.rs:211-222 | Agrees with Parse.ParseDataChunk. |
| Reader.RiffWaveReader.constructor | src/lib.rs:41-48 | The reader keeps the stream and the five decoded parts. |
| Reader.RiffWaveReader.New | src/lib.rs:21-51 | `new` fails with exactly the error of Parse.Decode. Otherwise it returns a reader over the same stream, holding the decoded document, with the stream at the first sample. On NotRiff or NotWave the stream is exactly 12 bytes on, on InvalidFmtChunk exactly 16 bytes on, and on InvalidExtendedInfo exactly 38 bytes on. |
| Reader.RiffWaveReader.Data | src/lib.rs:53-58 | `data` yields every byte from the cursor to the end and leaves the stream exhausted. |
| Serialize.ParseRiffChunkOfEncode | src/lib.rs:94-104 | Decoding a written RIFF header gives it back and consumes its 12 bytes. |
| Serialize.EncodeOfParseRiffChunk | src/lib.rs:94-104 | A decoded RIFF header can be written, and writing it reproduces the 12 bytes read, with `Data` spelled `data`. |
| Serialize.ParseExtendedInfoOfEncode | src/lib.rs:141-164 | Decoding a written extension at its own size gives it back and consumes exactly its bytes. |
| Serialize.EncodeOfParseExtendedInfo | src/lib.rs:141-164 | Writing a decoded extension reproduces the bytes it was read from. |
| Serialize.FmtChunkOfEncode | src/lib.rs:112-118 | Reading the 20 written fixed fields gives the `fmt ` chunk back, for every format the classifier can produce. |
| Serialize.EncodeOfFmtChunkOf | src/lib.rs:112-118 | Writing the fixed fields read from any 20 bytes reproduces those bytes. |
| Serialize.ParseFmtExtensionOfEncode | src/lib.rs:120-125 | A written extension that does not begin like a known tag decodes back. So does no extension followed by a known tag. |
| Serialize.EncodeOfParseFmtExtension | src/lib.rs:120-125 | A decoded extension decision meets those conditions, and writing it reproduces its bytes. The exception is an explicit size 0, whose two bytes are lost. |
| Serialize.ParseFmtChunkOfEncode | src/lib.rs:106-139 | A written `fmt ` chunk decodes back and consumes exactly its bytes, given a known tag after it when it has no extension. |
| Serialize.EncodeOfParseFmtChunk | src/lib.rs:106-139 | Every decoded `fmt ` chunk is writable. Written back, it reproduces its bytes, or all but the two bytes of an explicit size 0. |
| Serialize.ParseFactChunkOfEncode | src/lib.rs:166-185 | A written `fact` chunk decodes back. Where none was written and no `fact` tag follows, none is found and the cursor stays. |
| Serialize.EncodeOfParseFactChunk | src/lib.rs:166-185 | A decoded `fact` chunk's size covers its content, and writing it reproduces its bytes. |
| Serialize.EncodeOfReadOtherChunk | src/lib.rs:189-208 | Writing the chunk one round read reproduces its bytes. |
| Serialize.ParseOtherChunksOfEncode | src/lib.rs:188-209 | Written chunks followed by a `data` tag decode back, with the cursor in front of that tag. |
| Serialize.EncodeOfParseOtherChunks | src/lib.rs:188-209 | Writing the scanned chunks back reproduces every byte the scan consumed. |
| Serialize.ParseDataChunkOfEncode | src/lib.rs:211-222 | A written `data` header reads as `data` and decodes back, with the parity of its size as pad byte. |
| Serialize.EncodeOfParseDataChunk | src/lib.rs:211-222 | Writing a decoded `data` header reproduces its 8 bytes, with the tag spelled `data`. |
| Serialize.DecodeOfParts | src/lib.rs:21-51 | When each chunk step succeeds where the previous one ended, the whole decode succeeds with those chunks. |
| Serialize.DecodeOfEncode | src/lib.rs:21-51 | Decoding a written header gives the document back, whatever follows it, and ends at the first sample. The conditions are the ones under which the peeks cannot misread it: a `fmt ` chunk written without an extension size must be followed by a known tag. |
| Serialize.ParseFmtExtensionOfExplicitZero | src/lib.rs:120-135 | An explicit extension size 0 is never taken for a tag: it decodes as size 0, no extension, two bytes on, whatever follows. |
| Serialize.ParseFmtChunkOfEncodeExplicitZero | src/lib.rs:106-139 | A `fmt ` chunk without extension written in its 18-byte form decodes back and consumes exactly 26 bytes, whatever chunk follows. |
| Serialize.DecodeOfEncodeExplicitZero | src/lib.rs:21-51 | Decoding a header written with an 18-byte `fmt ` chunk gives the document back and ends at the first sample, whatever chunks follow the `fmt ` chunk, unknown ones such as `LIST` included. |
| Findings.WrappedRemainingSize | src/lib.rs:176 | `data_size - 4` in release-build u32 arithmetic: exact from 4 up, and at least 0xFFFF_FFFC below 4. |
| Findings.ParseFactChunkAsWritten | src/lib.rs:166-185 | `read_fact_chunk` as written. It fails only with an I/O error, and its payload length is the wrapped difference. |
| Findings.AsWrittenDiffersOnlyOnShortFact | src/lib.rs:176-178 | The code as written and the corrected decoder agree on every input except a `fact` chunk whose size is below 4. |
| Findings.ShortFactAsWritten | src/lib.rs:176-178 | On such a chunk the code as written either reports an I/O error or returns a payload that does not match the declared size. The corrected decoder reports InvalidFactChunk. |
| Findings.ZeroSizedFact | src/lib.rs:176-178 | `fact` with size 0: the code as written asks for 4294967292 bytes and fails with an I/O error. The corrected decoder rejects the chunk. |

## Left out

- `print_info` and the `Display` implementation only format text.
- The command-line program is not part of this model.
- `into_reader` only hands the stream back.
- `io::Error` details: every failed read or seek is the single error `IOError`.
- Seeks cannot fail on the in-memory stream.
- Reader.Stream: the `Read + Seek` stream is an array of bytes in memory with a cursor. Real I/O, short reads and interleaved access are not modelled.
- Parse.ReadOtherChunk, Reader.Stream.ReadOtherChunk, Parse.ParseFactChunk, Reader.Stream.ReadFactChunk, Findings.ParseFactChunkAsWritten: the source allocates a zeroed buffer of the declared size before it reads (src/lib.rs:155, 177, 198). A declared size near 4 GiB can fail that allocation, which aborts the process. The model has no allocation and reports only the `IOError` of the short read.
- Reader.Stream methods, Reader.RiffWaveReader.New: where the cursor is left after a failed read (IOError, and InvalidFactChunk, which the corrected decoder raises after reading the size) is not stated. The Rust reader is dropped on every error.
- Riff.FourCCOf: `Other` keeps the raw tag bytes. The UTF-8 reinterpretation by `from_utf8_unchecked` is left out.
- Reader.RiffWaveReader.Data: the payload is returned as a sequence, not an iterator, and it cannot fail on the in-memory stream.
- Parse.ParseFactChunk: it rejects a size below 4 with `InvalidFactChunk`, a variant src/error.rs lacks. The source's behaviour is in module Findings.
- Serialize.DecodeOfEncode: a header whose `fmt ` chunk has no extension size field and is followed directly by an unknown chunk is excluded, because the source misreads that layout (its tag is taken for an extension size). The 18-byte layout is covered by Serialize.DecodeOfEncodeExplicitZero.
- Serialize: the crate writes nothing. The encoders exist only to state what the decoder loses. The document-level statement runs one way: encode, then decode. The other way is stated chunk by chunk.

## Findings

| source | as written | input that shows it | evidently intended | confidence | as-written member | corrected member |
|---|---|---|---|---|---|---|
| src/lib.rs:176 | `let remaining_size = (data_size - 4) as usize;` subtracts without a check. A debug build panics on a declared size below 4. A release build wraps, allocates a buffer of about 4 GiB and then fails to read it. | The 12 bytes `fact` 00 00 00 00 00 00 00 00: a `fact` chunk of declared size 0 | Reject a `fact` chunk whose size cannot hold its sample length as a malformed chunk | not executed | Findings.ParseFactChunkAsWritten, Findings.ZeroSizedFact | Parse.ParseFactChunk |
