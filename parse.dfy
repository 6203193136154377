/** The decoding protocol of `RiffWaveReader::new` and its `ReadExt` helpers,
    stated as functions of the whole input `s` and a cursor `p`. Each returns
    the decoded value together with the cursor after it (`Step`), or the error
    that aborts the decode. The imperative reader in module Reader is proved
    to compute exactly these. */
module Parse {
  import opened LittleEndian
  import opened Riff

  // ------------------------------------------------------- primitive reads

  /** `read_exact` of n bytes: fails with an I/O error when fewer than n bytes
      are left, and otherwise yields the next n bytes and moves past them. */
  function ReadBytes(s: seq<byte>, p: nat, n: nat): (r: Result<Step<seq<byte>>>)
    ensures r.Ok? <==> p + n <= |s|
    ensures r.Ok? ==> r.value == Step(s[p..p + n], p + n)
    ensures r.Err? ==> r.error == IOError
  {
    if p + n <= |s| then Ok(Step(s[p..p + n], p + n)) else Err(IOError)
  }

  /** Two `read_exact` calls in a row read what one call of their combined
      length reads, and fail exactly when it fails. This is what lets each
      reader step be written as a sequence of smaller reads. */
  lemma ReadBytesConsecutive(s: seq<byte>, p: nat, n: nat, m: nat)
    ensures ReadBytes(s, p, n + m).Ok?
            <==> ReadBytes(s, p, n).Ok? && ReadBytes(s, p + n, m).Ok?
    ensures ReadBytes(s, p, n + m).Ok? ==>
      ReadBytes(s, p, n + m).value
      == Step(ReadBytes(s, p, n).value.value + ReadBytes(s, p + n, m).value.value, p + n + m)
  {
    if p + n + m <= |s| {
      assert s[p..p + n + m] == s[p..p + n] + s[p + n..p + n + m];
    }
  }

  /** `read_fourcc`: four bytes, classified. */
  function ReadFourCC(s: seq<byte>, p: nat): (r: Result<Step<FourCC>>)
    ensures r.Ok? <==> p + 4 <= |s|
    ensures r.Ok? ==> r.value == Step(FourCCOf(s[p..p + 4]), p + 4)
    ensures r.Err? ==> r.error == IOError
  {
    var b :- ReadBytes(s, p, 4);
    Ok(Step(FourCCOf(b.value), b.next))
  }

  /** `read_u16`: two bytes, little-endian. */
  function ReadU16(s: seq<byte>, p: nat): (r: Result<Step<u16>>)
    ensures r.Ok? <==> p + 2 <= |s|
    ensures r.Ok? ==> r.value == Step(U16LE(s[p..p + 2]), p + 2)
    ensures r.Err? ==> r.error == IOError
  {
    var b :- ReadBytes(s, p, 2);
    Ok(Step(U16LE(b.value), b.next))
  }

  /** `read_u32`: four bytes, little-endian. */
  function ReadU32(s: seq<byte>, p: nat): (r: Result<Step<u32>>)
    ensures r.Ok? <==> p + 4 <= |s|
    ensures r.Ok? ==> r.value == Step(U32LE(s[p..p + 4]), p + 4)
    ensures r.Err? ==> r.error == IOError
  {
    var b :- ReadBytes(s, p, 4);
    Ok(Step(U32LE(b.value), b.next))
  }

  /** `read_u128`: sixteen bytes, little-endian. */
  function ReadU128(s: seq<byte>, p: nat): (r: Result<Step<u128>>)
    ensures r.Ok? <==> p + 16 <= |s|
    ensures r.Ok? ==> r.value == Step(U128LE(s[p..p + 16]), p + 16)
    ensures r.Err? ==> r.error == IOError
  {
    var b :- ReadBytes(s, p, 16);
    Ok(Step(U128LE(b.value), b.next))
  }

  /** `read_is_fourcc`: reads a tag, seeks back over it, and tells whether it
      is one the classifier knows. The cursor ends where it started. */
  function ReadIsFourCC(s: seq<byte>, p: nat): (r: Result<Step<bool>>)
    ensures r.Ok? <==> p + 4 <= |s|
    ensures r.Ok? ==> r.value.next == p
    ensures r.Ok? ==> (r.value.value <==> IsKnownTag(s[p..p + 4]))
    ensures r.Err? ==> r.error == IOError
  {
    var tag :- ReadFourCC(s, p);
    Ok(Step(!tag.value.Other?, tag.next - 4))
  }

  // -------------------------------------------------------- chunk decoders

  /** `read_riff_chunk`: tag, declared size, form type; no validation. */
  function ParseRiffChunk(s: seq<byte>, p: nat): (r: Result<Step<RiffChunk>>)
    ensures r.Ok? <==> p + 12 <= |s|
    ensures r.Ok? ==> r.value.next == p + 12
    ensures r.Ok? ==> r.value.value == RiffChunk(FourCCOf(s[p..p + 4]),
                                                 U32LE(s[p + 4..p + 8]),
                                                 FourCCOf(s[p + 8..p + 12]))
    ensures r.Err? ==> r.error == IOError
  {
    var id :- ReadFourCC(s, p);
    var fileSize :- ReadU32(s, id.next);
    var fileType :- ReadFourCC(s, fileSize.next);
    Ok(Step(RiffChunk(id.value, fileSize.value, fileType.value), fileType.next))
  }

  /** `read_extended_info(size)`: nothing for size 0, an error for a size
      below the 22 bytes of fixed fields, and otherwise the fixed fields plus
      `size - 22` bytes kept verbatim. */
  function ParseExtendedInfo(s: seq<byte>, p: nat, size: u16): (r: Result<Step<Option<ExtendedInfo>>>)
    ensures size == 0 ==> r == Ok(Step(None, p))
    ensures 0 < size < 22 ==> r == Err(InvalidExtendedInfo)
    ensures size >= 22 ==> (r.Ok? <==> p + size as int <= |s|)
    ensures size >= 22 && r.Err? ==> r.error == IOError
    ensures size >= 22 && r.Ok? ==>
      && r.value.next == p + size as int
      && r.value.value
         == Some(ExtendedInfo(U16LE(s[p..p + 2]), U32LE(s[p + 2..p + 6]), U128LE(s[p + 6..p + 22]),
                              s[p + 22..p + size as int]))
  {
    if size == 0 then Ok(Step(None, p))
    else if size < 22 then Err(InvalidExtendedInfo)
    else
      var bitsPerCodedSample :- ReadU16(s, p);
      var channelMask :- ReadU32(s, bitsPerCodedSample.next);
      var subFormat :- ReadU128(s, channelMask.next);
      var remaining :- ReadBytes(s, subFormat.next, (size - 22) as nat);
      Ok(Step(Some(ExtendedInfo(bitsPerCodedSample.value, channelMask.value,
                                subFormat.value, remaining.value)),
              remaining.next))
  }

  /** The extension decision of `read_fmt_chunk`, at the cursor `p` right
      after the seven fixed fields. When the next four bytes are a known tag
      there is no extension, its size is recorded as 0 and the cursor stays in
      front of that tag; otherwise the next two bytes are the extension size
      and `read_extended_info` decodes that many bytes after them. */
  function ParseFmtExtension(s: seq<byte>, p: nat): (r: Result<Step<(u16, Option<ExtendedInfo>)>>)
    ensures p + 4 > |s| ==> r == Err(IOError)
    ensures p + 4 <= |s| && IsKnownTag(s[p..p + 4]) ==> r == Ok(Step((0, None), p))
    ensures p + 4 <= |s| && !IsKnownTag(s[p..p + 4]) ==>
      var size := U16LE(s[p..p + 2]);
      && (r == Err(InvalidExtendedInfo) <==> 0 < size < 22)
      && (r.Ok? <==> size == 0 || (size >= 22 && p + 2 + size as int <= |s|))
      && (r.Ok? ==>
            && r.value.value.0 == size
            && r.value.next == p + 2 + size as int
            && (r.value.value.1.None? <==> size == 0)
            && (r.value.value.1.Some? ==>
                  r.value.value.1.value
                  == ExtendedInfo(U16LE(s[p + 2..p + 4]), U32LE(s[p + 4..p + 8]), U128LE(s[p + 8..p + 24]),
                                  s[p + 24..p + 2 + size as int])))
    ensures r.Err? ==> r.error == InvalidExtendedInfo || r.error == IOError
    ensures r.Ok? ==> p <= r.value.next <= |s|
  {
    var isFourCC :- ReadIsFourCC(s, p);
    if isFourCC.value then Ok(Step((0, None), isFourCC.next))
    else
      // the peek has just read these bytes, so this read cannot fail
      var extraInfoSize := ReadU16(s, isFourCC.next).value;
      assert extraInfoSize == Step(U16LE(s[p..p + 2]), p + 2);
      var extended :- ParseExtendedInfo(s, p + 2, extraInfoSize.value);
      Ok(Step((extraInfoSize.value, extended.value), extended.next))
  }

  /** `read_fmt_chunk`: the tag must be `fmt `; then the seven fixed fields
      from the 20 bytes after it, in the order size, format, channels, sample
      rate, byte rate, block alignment, bits per sample; then the extension. */
  function ParseFmtChunk(s: seq<byte>, p: nat): (r: Result<Step<FmtChunk>>)
    ensures r == Err(InvalidFmtChunk) <==> p + 4 <= |s| && s[p..p + 4] != FMT_TAG
    ensures r.Err? ==> r.error == InvalidFmtChunk || r.error == InvalidExtendedInfo || r.error == IOError
    ensures p + 4 <= |s| && s[p..p + 4] == FMT_TAG && p + 24 > |s| ==> r == Err(IOError)
    ensures r.Ok? ==>
      var f := r.value.value;
      && p + 24 <= |s| && s[p..p + 4] == FMT_TAG
      && f.id == Fmt
      && f.dataSize == U32LE(s[p + 4..p + 8])
      && f.format == FormatOf(U16LE(s[p + 8..p + 10]))
      && f.numChannels == U16LE(s[p + 10..p + 12])
      && f.sampleRate == U32LE(s[p + 12..p + 16])
      && f.byteRate == U32LE(s[p + 16..p + 20])
      && f.blockAlign == U16LE(s[p + 20..p + 22])
      && f.bitsPerRawSample == U16LE(s[p + 22..p + 24])
    ensures p + 24 <= |s| && s[p..p + 4] == FMT_TAG ==>
      && (r.Ok? <==> ParseFmtExtension(s, p + 24).Ok?)
      && (r.Ok? ==>
            ParseFmtExtension(s, p + 24).value
            == Step((r.value.value.extraInfoSize, r.value.value.extendedInfo), r.value.next))
    ensures p + 24 <= |s| && s[p..p + 4] == FMT_TAG && ParseFmtExtension(s, p + 24).Err? ==>
      r == Err(ParseFmtExtension(s, p + 24).error)
    ensures r.Ok? ==> p + 24 <= r.value.next <= |s|
  {
    var id :- ReadFourCC(s, p);
    FourCCOfCases(s[p..p + 4]);
    if id.value != Fmt then Err(InvalidFmtChunk)
    else
      var dataSize :- ReadU32(s, id.next);
      var format :- ReadU16(s, dataSize.next);
      var numChannels :- ReadU16(s, format.next);
      var sampleRate :- ReadU32(s, numChannels.next);
      var byteRate :- ReadU32(s, sampleRate.next);
      var blockAlign :- ReadU16(s, byteRate.next);
      var bitsPerRawSample :- ReadU16(s, blockAlign.next);
      var extension :- ParseFmtExtension(s, bitsPerRawSample.next);
      Ok(Step(FmtChunk(id.value, dataSize.value, FormatOf(format.value),
                       numChannels.value, sampleRate.value, byteRate.value,
                       blockAlign.value, bitsPerRawSample.value,
                       extension.value.0, extension.value.1),
              extension.next))
  }

  /** `read_fact_chunk`: absent, with the cursor put back, unless the next
      tag is `fact`; then its size, the sample length, and `size - 4` bytes
      kept verbatim. A size below 4 is rejected with `InvalidFactChunk`
      (module Findings shows what the source does instead). */
  function ParseFactChunk(s: seq<byte>, p: nat): (r: Result<Step<Option<FactChunk>>>)
    ensures p + 4 > |s| ==> r == Err(IOError)
    ensures p + 4 <= |s| && s[p..p + 4] != FACT_TAG ==> r == Ok(Step(None, p))
    ensures p + 4 <= |s| && s[p..p + 4] == FACT_TAG && p + 12 > |s| ==> r == Err(IOError)
    ensures p + 12 <= |s| && s[p..p + 4] == FACT_TAG ==>
      var size := U32LE(s[p + 4..p + 8]);
      && (size < 4 ==> r == Err(InvalidFactChunk))
      && (size >= 4 ==>
            && (r.Ok? <==> p + 8 + size as int <= |s|)
            && (r.Err? ==> r.error == IOError)
            && (r.Ok? ==>
                  r.value == Step(Some(FactChunk(Fact, size, U32LE(s[p + 8..p + 12]),
                                                 s[p + 12..p + 8 + size as int])),
                                  p + 8 + size as int)))
    ensures r.Err? ==> r.error == InvalidFactChunk || r.error == IOError
    ensures r.Ok? && r.value.value.None? ==> r.value.next == p
    ensures r.Ok? && r.value.value.Some? ==>
      && r.value.value.value.id == Fact
      && r.value.value.value.dataSize >= 4
      && r.value.next == p + 8 + r.value.value.value.dataSize as int <= |s|
      && |r.value.value.value.remainingData| == r.value.value.value.dataSize as int - 4
  {
    var id :- ReadFourCC(s, p);
    FourCCOfCases(s[p..p + 4]);
    if id.value != Fact then Ok(Step(None, id.next - 4))
    else
      var dataSize :- ReadU32(s, id.next);
      var sampleLength :- ReadU32(s, dataSize.next);
      if dataSize.value < 4 then Err(InvalidFactChunk)
      else
        var remaining :- ReadBytes(s, sampleLength.next, (dataSize.value - 4) as nat);
        Ok(Step(Some(FactChunk(id.value, dataSize.value, sampleLength.value, remaining.value)),
                remaining.next))
  }

  /** One round of the loop in `read_other_chunks`: `None` when the next tag
      is `data` (or `Data`), which is then sought back over; otherwise the
      tag, a size, and that many payload bytes as one chunk. */
  function ReadOtherChunk(s: seq<byte>, p: nat): (r: Result<Option<Step<OtherChunk>>>)
    ensures r.Err? ==> r.error == IOError
    ensures r.Ok? && r.value.None? <==> p + 4 <= |s| && FourCCOf(s[p..p + 4]) == Data
    ensures r.Ok? && r.value.Some? <==>
      && p + 8 <= |s| && FourCCOf(s[p..p + 4]) != Data
      && p + 8 + U32LE(s[p + 4..p + 8]) as int <= |s|
    ensures r.Ok? && r.value.Some? ==>
      var c := r.value.value;
      && c.next == p + 8 + c.value.dataSize as int <= |s|
      && c.value == OtherChunk(FourCCOf(s[p..p + 4]), U32LE(s[p + 4..p + 8]), s[p + 8..c.next])
      && c.value.id != Data && WellFormedFourCC(c.value.id)
  {
    var id :- ReadFourCC(s, p);
    if id.value == Data then Ok(None)
    else
      var dataSize :- ReadU32(s, id.next);
      var data :- ReadBytes(s, dataSize.next, dataSize.value as nat);
      FourCCOfCases(s[p..p + 4]);
      Ok(Some(Step(OtherChunk(id.value, dataSize.value, data.value), data.next)))
  }

  /** What `read_other_chunks` guarantees of every chunk it collects. */
  predicate OtherChunksWellFormed(cs: seq<OtherChunk>) {
    forall i :: 0 <= i < |cs| ==>
      && cs[i].id != Data
      && WellFormedFourCC(cs[i].id)
      && |cs[i].data| == cs[i].dataSize as int
  }

  /** `read_other_chunks`: the loop's rounds until the next tag is `data`;
      the cursor ends in front of that tag. */
  function ParseOtherChunks(s: seq<byte>, p: nat): (r: Result<Step<seq<OtherChunk>>>)
    decreases |s| - p
    ensures r.Ok? ==> p <= r.value.next && r.value.next + 4 <= |s|
    ensures r.Ok? ==> FourCCOf(s[r.value.next..r.value.next + 4]) == Data
    ensures r.Err? ==> r.error == IOError
  {
    match ReadOtherChunk(s, p)
    case Err(e) => Err(e)
    case Ok(None) => Ok(Step([], p))
    case Ok(Some(chunk)) =>
      match ParseOtherChunks(s, chunk.next)
      case Err(e) => Err(e)
      case Ok(rest) => Ok(Step([chunk.value] + rest.value, rest.next))
  }

  /** Every chunk the scan collects has a payload as long as its declared
      size, and none of them is the `data` chunk. */
  lemma {:induction false} OtherChunksAreWellFormed(s: seq<byte>, p: nat)
    requires ParseOtherChunks(s, p).Ok?
    ensures OtherChunksWellFormed(ParseOtherChunks(s, p).value.value)
    decreases |s| - p
  {
    var first := ReadOtherChunk(s, p).value;
    if first.Some? {
      OtherChunksAreWellFormed(s, first.value.next);
    }
  }

  /** The pad byte RIFF puts after a chunk of odd length. */
  function PadByte(dataSize: u32): (r: byte)
    ensures r as int == dataSize as int % 2
  {
    if dataSize % 2 == 0 then 0 else 1
  }

  /** `read_data_chunk`: tag and declared size only; the payload stays in the
      stream. */
  function ParseDataChunk(s: seq<byte>, p: nat): (r: Result<Step<DataChunk>>)
    ensures r.Ok? <==> p + 8 <= |s|
    ensures r.Ok? ==> r.value.next == p + 8
    ensures r.Ok? ==> r.value.value.id == FourCCOf(s[p..p + 4])
    ensures r.Ok? ==> r.value.value.dataSize == U32LE(s[p + 4..p + 8])
    ensures r.Ok? ==> r.value.value.padByte as int == r.value.value.dataSize as int % 2
    ensures r.Err? ==> r.error == IOError
  {
    var id :- ReadFourCC(s, p);
    var dataSize :- ReadU32(s, id.next);
    Ok(Step(DataChunk(id.value, dataSize.value, PadByte(dataSize.value)), dataSize.next))
  }

  // ---------------------------------------------------------- the assembler

  /** What every decoded document satisfies: the header says RIFF/WAVE, each
      chunk carries the identifier it was recognised by, the other chunks are
      well formed, and the pad byte is the parity of the data size. */
  predicate ValidDocument(d: Document) {
    && d.riff.id == Riff && d.riff.fileType == Wave
    && d.fmt.id == Fmt
    && (d.fact.Some? ==> d.fact.value.id == Fact)
    && OtherChunksWellFormed(d.others)
    && d.data.id == Data
    && d.data.padByte as int == d.data.dataSize as int % 2
  }

  /** `RiffWaveReader::new`: the 12-byte header, checked for `RIFF` and then
      `WAVE`, followed by the remaining chunks. The first failure aborts the
      whole decode; the header checks happen before anything after the
      header is read. */
  function Decode(s: seq<byte>, p: nat): (r: Result<Step<Document>>)
    ensures |s| < p + 12 ==> r == Err(IOError)
    ensures r == Err(NotRiff) <==> p + 12 <= |s| && s[p..p + 4] != RIFF_TAG
    ensures r == Err(NotWave) <==>
      p + 12 <= |s| && s[p..p + 4] == RIFF_TAG && s[p + 8..p + 12] != WAVE_TAG
    ensures r == Err(InvalidFmtChunk) <==>
      && p + 16 <= |s|
      && s[p..p + 4] == RIFF_TAG && s[p + 8..p + 12] == WAVE_TAG
      && s[p + 12..p + 16] != FMT_TAG
    ensures r == Err(InvalidExtendedInfo) <==>
      && p + 36 <= |s|
      && s[p..p + 4] == RIFF_TAG && s[p + 8..p + 12] == WAVE_TAG
      && s[p + 12..p + 16] == FMT_TAG
      && ParseFmtExtension(s, p + 36) == Err(InvalidExtendedInfo)
    ensures r.Ok? ==> p + 44 <= r.value.next <= |s|
    ensures r.Ok? ==> r.value.value.riff.fileSize == U32LE(s[p + 4..p + 8])
    ensures r.Ok? ==> ValidDocument(r.value.value)
  {
    var riff :- ParseRiffChunk(s, p);
    FourCCOfCases(s[p..p + 4]);
    FourCCOfCases(s[p + 8..p + 12]);
    if riff.value.id != Riff then Err(NotRiff)
    else if riff.value.fileType != Wave then Err(NotWave)
    else DecodeChunks(s, riff.value, riff.next)
  }

  /** The chunks after the header, in protocol order: `fmt `, then the
      rest. */
  function DecodeChunks(s: seq<byte>, riff: RiffChunk, p: nat): (r: Result<Step<Document>>)
    requires riff.id == Riff && riff.fileType == Wave
    ensures r.Err? ==> r.error != NotRiff && r.error != NotWave
    ensures r == Err(InvalidFmtChunk) <==> p + 4 <= |s| && s[p..p + 4] != FMT_TAG
    ensures r == Err(InvalidExtendedInfo) <==>
      p + 24 <= |s| && s[p..p + 4] == FMT_TAG && ParseFmtExtension(s, p + 24) == Err(InvalidExtendedInfo)
    ensures r.Ok? ==> p + 32 <= r.value.next <= |s|
    ensures r.Ok? ==> r.value.value.riff == riff && ValidDocument(r.value.value)
  {
    var fmt :- ParseFmtChunk(s, p);
    DecodeAfterFmt(s, riff, fmt.value, fmt.next)
  }

  /** The optional `fact` chunk, the other chunks, and the `data` header,
      after a decoded `fmt ` chunk. */
  function DecodeAfterFmt(s: seq<byte>, riff: RiffChunk, fmt: FmtChunk, p: nat): (r: Result<Step<Document>>)
    requires riff.id == Riff && riff.fileType == Wave && fmt.id == Fmt
    ensures r.Err? ==> r.error == InvalidFactChunk || r.error == IOError
    ensures r.Ok? ==> p + 8 <= r.value.next <= |s|
    ensures r.Ok? ==> r.value.value.riff == riff && r.value.value.fmt == fmt
    ensures r.Ok? ==> ValidDocument(r.value.value)
  {
    var fact :- ParseFactChunk(s, p);
    var others :- ParseOtherChunks(s, fact.next);
    var data :- ParseDataChunk(s, others.next);
    OtherChunksAreWellFormed(s, fact.next);
    var d := Document(riff, fmt, fact.value, others.value, data.value);
    assert ValidDocument(d);
    Ok(Step(d, data.next))
  }
}
