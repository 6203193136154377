/** The reader itself: a seekable byte stream with the `ReadExt` helpers as
    methods that advance its cursor, and `RiffWaveReader`, which runs them in
    protocol order (src/lib.rs). Every method is proved to compute what the
    corresponding function of module Parse describes, on the stream's bytes
    and the cursor it started from. */
module Reader {
  import opened LittleEndian
  import opened Riff
  import opened Parse

  /** A method's outcome `r` and its new cursor `pos` are the ones the decoding
      function describes: on success the same value and the cursor after it,
      on failure the same error. Where the cursor is left after a failure is
      not specified, since the reader is dropped on every error. */
  ghost predicate Agrees<T>(r: Result<T>, spec: Result<Step<T>>, pos: nat) {
    match spec
    case Ok(st) => r == Ok(st.value) && pos == st.next
    case Err(e) => r == Err(e)
  }

  /** The chunks a scan for other chunks collects, put after `cs`; errors
      pass through. */
  ghost function Prepend(cs: seq<OtherChunk>, r: Result<Step<seq<OtherChunk>>>): Result<Step<seq<OtherChunk>>> {
    match r
    case Ok(st) => Ok(Step(cs + st.value, st.next))
    case Err(e) => Err(e)
  }

  lemma PrependAppend(cs: seq<OtherChunk>, c: OtherChunk, r: Result<Step<seq<OtherChunk>>>)
    ensures Prepend(cs, Prepend([c], r)) == Prepend(cs + [c], r)
  {
    if r.Ok? {
      assert cs + ([c] + r.value.value) == (cs + [c]) + r.value.value;
    }
  }

  /** An in-memory `Read + Seek` stream: its bytes and a cursor into them. */
  class Stream {
    const buf: array<byte>
    var pos: nat

    ghost predicate Valid()
      reads this
    {
      pos <= buf.Length
    }

    constructor (bytes: seq<byte>)
      ensures Valid() && fresh(buf)
      ensures buf[..] == bytes && pos == 0
    {
      buf := new byte[|bytes|](i requires 0 <= i < |bytes| => bytes[i]);
      pos := 0;
    }

    /** `read_exact` of n bytes. */
    method ReadExact(n: nat) returns (r: Result<seq<byte>>)
      requires Valid()
      modifies this
      ensures Valid()
      ensures Agrees(r, ReadBytes(buf[..], old(pos), n), pos)
    {
      if buf.Length < pos + n {
        return Err(IOError);
      }
      r := Ok(buf[pos..pos + n]);
      pos := pos + n;
    }

    /** `read_fourcc`. */
    method ReadFourCC() returns (r: Result<FourCC>)
      requires Valid()
      modifies this
      ensures Valid()
      ensures Agrees(r, Parse.ReadFourCC(buf[..], old(pos)), pos)
    {
      var b :- ReadExact(4);
      return Ok(FourCCOf(b));
    }

    /** `read_u16`. */
    method ReadU16() returns (r: Result<u16>)
      requires Valid()
      modifies this
      ensures Valid()
      ensures Agrees(r, Parse.ReadU16(buf[..], old(pos)), pos)
    {
      var b :- ReadExact(2);
      return Ok(U16LE(b));
    }

    /** `read_u32`. */
    method ReadU32() returns (r: Result<u32>)
      requires Valid()
      modifies this
      ensures Valid()
      ensures Agrees(r, Parse.ReadU32(buf[..], old(pos)), pos)
    {
      var b :- ReadExact(4);
      return Ok(U32LE(b));
    }

    /** `read_u128`. */
    method ReadU128() returns (r: Result<u128>)
      requires Valid()
      modifies this
      ensures Valid()
      ensures Agrees(r, Parse.ReadU128(buf[..], old(pos)), pos)
    {
      var b :- ReadExact(16);
      return Ok(U128LE(b));
    }

    /** `read_is_fourcc`: read a tag, seek back over it. */
    method ReadIsFourCC() returns (r: Result<bool>)
      requires Valid()
      modifies this
      ensures Valid()
      ensures Agrees(r, Parse.ReadIsFourCC(buf[..], old(pos)), pos)
    {
      var fourcc :- ReadFourCC();
      pos := pos - 4;
      return Ok(!fourcc.Other?);
    }

    /** `read_riff_chunk`. */
    method ReadRiffChunk() returns (r: Result<RiffChunk>)
      requires Valid()
      modifies this
      ensures Valid()
      ensures Agrees(r, ParseRiffChunk(buf[..], old(pos)), pos)
    {
      var id :- ReadFourCC();
      var fileSize :- ReadU32();
      var fileType :- ReadFourCC();
      return Ok(RiffChunk(id, fileSize, fileType));
    }

    /** `read_extended_info`. */
    method ReadExtendedInfo(size: u16) returns (r: Result<Option<ExtendedInfo>>)
      requires Valid()
      modifies this
      ensures Valid()
      ensures Agrees(r, ParseExtendedInfo(buf[..], old(pos), size), pos)
      ensures r == Err(InvalidExtendedInfo) ==> pos == old(pos)
    {
      if size == 0 {
        return Ok(None);
      }
      if size < 22 {
        return Err(InvalidExtendedInfo);
      }
      var bitsPerCodedSample :- ReadU16();
      var channelMask :- ReadU32();
      var subFormat :- ReadU128();
      var remainingData :- ReadExact((size - 22) as nat);
      return Ok(Some(ExtendedInfo(bitsPerCodedSample, channelMask, subFormat, remainingData)));
    }

    /** `read_fmt_chunk`. */
    method ReadFmtChunk() returns (r: Result<FmtChunk>)
      requires Valid()
      modifies this
      ensures Valid()
      ensures Agrees(r, ParseFmtChunk(buf[..], old(pos)), pos)
      ensures r == Err(InvalidFmtChunk) ==> pos == old(pos) + 4
      ensures r == Err(InvalidExtendedInfo) ==> pos == old(pos) + 26
    {
      var id :- ReadFourCC();
      if id != Fmt {
        return Err(InvalidFmtChunk);
      }
      FourCCOfCases(buf[pos - 4..pos]);
      assert buf[..][pos - 4..pos] == FMT_TAG;
      var dataSize :- ReadU32();
      var format :- ReadU16();
      var numChannels :- ReadU16();
      var sampleRate :- ReadU32();
      var byteRate :- ReadU32();
      var blockAlign :- ReadU16();
      var bitsPerRawSample :- ReadU16();
      var extension :- ReadFmtExtension();
      return Ok(FmtChunk(id, dataSize, FormatOf(format), numChannels, sampleRate, byteRate,
                         blockAlign, bitsPerRawSample, extension.0, extension.1));
    }

    /** The extension part of `read_fmt_chunk`: peek at the next tag; a known
        one means no extension, anything else an extension size and the
        extension itself. */
    method ReadFmtExtension() returns (r: Result<(u16, Option<ExtendedInfo>)>)
      requires Valid()
      modifies this
      ensures Valid()
      ensures Agrees(r, ParseFmtExtension(buf[..], old(pos)), pos)
      ensures r == Err(InvalidExtendedInfo) ==> pos == old(pos) + 2
    {
      var isFourCC :- ReadIsFourCC();
      if isFourCC {
        return Ok((0, None));
      }
      // the peek has just read these two bytes, so this read cannot fail
      var size := ReadU16();
      var extraInfoSize := size.value;
      var extendedInfo :- ReadExtendedInfo(extraInfoSize);
      return Ok((extraInfoSize, extendedInfo));
    }

    /** `read_fact_chunk`, with the size check of the corrected decoder. */
    method ReadFactChunk() returns (r: Result<Option<FactChunk>>)
      requires Valid()
      modifies this
      ensures Valid()
      ensures Agrees(r, ParseFactChunk(buf[..], old(pos)), pos)
    {
      var id :- ReadFourCC();
      if id != Fact {
        pos := pos - 4;
        return Ok(None);
      }
      var dataSize :- ReadU32();
      var sampleLength :- ReadU32();
      if dataSize < 4 {
        return Err(InvalidFactChunk);
      }
      var remainingData :- ReadExact((dataSize - 4) as nat);
      return Ok(Some(FactChunk(id, dataSize, sampleLength, remainingData)));
    }

    /** One round of the loop in `read_other_chunks`: `None`, with the
        cursor put back, when the next tag is `data`; otherwise one chunk. */
    method ReadOtherChunk() returns (r: Result<Option<OtherChunk>>)
      requires Valid()
      modifies this
      ensures Valid()
      ensures match Parse.ReadOtherChunk(buf[..], old(pos))
        case Err(e) => r == Err(e)
        case Ok(None) => r == Ok(None) && pos == old(pos)
        case Ok(Some(st)) => r == Ok(Some(st.value)) && pos == st.next
    {
      var fourcc :- ReadFourCC();
      if fourcc == Data {
        pos := pos - 4;
        return Ok(None);
      }
      var dataSize :- ReadU32();
      var data :- ReadExact(dataSize as nat);
      return Ok(Some(OtherChunk(fourcc, dataSize, data)));
    }

    /** `read_other_chunks`: read chunks and push them onto `chunks` until
        the next tag is `data`, then seek back over that tag. `pushed` is the
        vector afterwards; on a failure it keeps what was pushed before. */
    method ReadOtherChunks(chunks: seq<OtherChunk>) returns (r: Result<()>, pushed: seq<OtherChunk>)
      requires Valid()
      modifies this
      ensures Valid()
      ensures |chunks| <= |pushed| && pushed[..|chunks|] == chunks
      ensures Agrees(if r.Ok? then Ok(pushed) else Err(r.error),
                     Prepend(chunks, ParseOtherChunks(buf[..], old(pos))), pos)
    {
      pushed := chunks;
      ghost var s, start := buf[..], pos;
      while true
        invariant Valid() && buf[..] == s
        invariant |chunks| <= |pushed| && pushed[..|chunks|] == chunks
        invariant Prepend(chunks, ParseOtherChunks(s, start)) == Prepend(pushed, ParseOtherChunks(s, pos))
        decreases buf.Length - pos
      {
        ghost var here := pos;
        var chunk := ReadOtherChunk();
        if chunk.Err? {
          return Err(chunk.error), pushed;
        }
        if chunk.value.None? {
          assert pushed + [] == pushed;
          return Ok(()), pushed;
        }
        PrependAppend(pushed, chunk.value.value, ParseOtherChunks(s, pos));
        pushed := pushed + [chunk.value.value];
      }
    }

    /** The part of `RiffWaveReader::new` after the header checks: the
        `fmt ` chunk, the optional `fact` chunk, the other chunks, collected
        into a fresh vector, and the `data` header. */
    method ReadChunks(riff: RiffChunk) returns (r: Result<Document>)
      requires Valid()
      requires riff.id == Riff && riff.fileType == Wave
      modifies this
      ensures Valid()
      ensures Agrees(r, DecodeChunks(buf[..], riff, old(pos)), pos)
      ensures r == Err(InvalidFmtChunk) ==> pos == old(pos) + 4
      ensures r == Err(InvalidExtendedInfo) ==> pos == old(pos) + 26
    {
      var fmtChunk :- ReadFmtChunk();
      r := ReadAfterFmt(riff, fmtChunk);
    }

    /** The optional `fact` chunk, the other chunks and the `data` header,
        as in `DecodeAfterFmt`. */
    method ReadAfterFmt(riff: RiffChunk, fmtChunk: FmtChunk) returns (r: Result<Document>)
      requires Valid()
      requires riff.id == Riff && riff.fileType == Wave && fmtChunk.id == Fmt
      modifies this
      ensures Valid()
      ensures Agrees(r, DecodeAfterFmt(buf[..], riff, fmtChunk, old(pos)), pos)
    {
      var factChunk :- ReadFactChunk();
      var scan, otherChunks := ReadOtherChunks([]);
      if scan.Err? {
        return Err(scan.error);
      }
      var dataChunk :- ReadDataChunk();
      return Ok(Document(riff, fmtChunk, factChunk, otherChunks, dataChunk));
    }

    method ReadDataChunk() returns (r: Result<DataChunk>)
      requires Valid()
      modifies this
      ensures Valid()
      ensures Agrees(r, ParseDataChunk(buf[..], old(pos)), pos)
    {
      var id :- ReadFourCC();
      var dataSize :- ReadU32();
      var padByte: byte := if dataSize % 2 == 0 then 0 else 1;
      return Ok(DataChunk(id, dataSize, padByte));
    }
  }

  /** A decoded header together with the stream, positioned at the payload. */
  class RiffWaveReader {
    const reader: Stream
    const riffChunk: RiffChunk
    const fmtChunk: FmtChunk
    const factChunk: Option<FactChunk>
    const dataChunk: DataChunk
    const otherChunks: seq<OtherChunk>

    constructor (reader: Stream, riffChunk: RiffChunk, fmtChunk: FmtChunk,
                 factChunk: Option<FactChunk>, dataChunk: DataChunk,
                 otherChunks: seq<OtherChunk>)
      ensures this.reader == reader
      ensures Header() == Document(riffChunk, fmtChunk, factChunk, otherChunks, dataChunk)
    {
      this.reader := reader;
      this.riffChunk := riffChunk;
      this.fmtChunk := fmtChunk;
      this.factChunk := factChunk;
      this.dataChunk := dataChunk;
      this.otherChunks := otherChunks;
    }

    /** The decoded chunks as one value. */
    function Header(): (d: Document) {
      Document(riffChunk, fmtChunk, factChunk, otherChunks, dataChunk)
    }

    /** `RiffWaveReader::new`: decode the header from the stream's cursor on.
        On success the reader keeps the stream, which is left at the start
        of the audio payload. */
    static method New(reader: Stream) returns (r: Result<RiffWaveReader>)
      requires reader.Valid()
      modifies reader
      ensures reader.Valid()
      ensures var spec := Decode(reader.buf[..], old(reader.pos));
        match spec
        case Ok(st) =>
          && r.Ok? && r.value.reader == reader && r.value.Header() == st.value
          && reader.pos == st.next
        case Err(e) => r == Err(e)
      ensures r == Err(NotRiff) || r == Err(NotWave) ==> reader.pos == old(reader.pos) + 12
      ensures r == Err(InvalidFmtChunk) ==> reader.pos == old(reader.pos) + 16
      ensures r == Err(InvalidExtendedInfo) ==> reader.pos == old(reader.pos) + 38
    {
      var riffChunk :- reader.ReadRiffChunk();
      if riffChunk.id != Riff {
        return Err(NotRiff);
      }
      if riffChunk.fileType != Wave {
        return Err(NotWave);
      }
      var header :- reader.ReadChunks(riffChunk);
      var riffReader := new RiffWaveReader(reader, header.riff, header.fmt, header.fact,
                                           header.data, header.others);
      return Ok(riffReader);
    }

    /** `data`: everything from the cursor to the end of the stream, which
        is then exhausted. */
    method Data() returns (bytes: seq<byte>)
      requires reader.Valid()
      modifies reader
      ensures reader.Valid()
      ensures bytes == reader.buf[old(reader.pos)..]
      ensures reader.pos == reader.buf.Length
    {
      bytes := reader.buf[reader.pos..];
      reader.pos := reader.buf.Length;
    }
  }
}
