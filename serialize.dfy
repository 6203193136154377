/** The byte layout of each chunk header, written out as the inverse of the
    decoder. The crate only reads; these encoders state the layout the
    decoder expects, so that decoding can be shown to recover exactly what
    was written, and to lose nothing of what it read. */
module Serialize {
  import opened LittleEndian
  import opened Riff
  import opened Parse

  // ------------------------------------------------------------ RIFF header

  function EncodeRiffChunk(c: RiffChunk): (r: seq<byte>)
    requires WellFormedFourCC(c.id) && WellFormedFourCC(c.fileType)
    ensures |r| == 12
  {
    TagBytes(c.id) + U32Bytes(c.fileSize) + TagBytes(c.fileType)
  }

  /** Decoding a written RIFF header gives it back and consumes 12 bytes. */
  lemma ParseRiffChunkOfEncode(s: seq<byte>, p: nat, c: RiffChunk, q: nat)
    requires WellFormedFourCC(c.id) && WellFormedFourCC(c.fileType)
    requires q == p + 12 && q <= |s| && s[p..q] == EncodeRiffChunk(c)
    ensures ParseRiffChunk(s, p) == Ok(Step(c, q))
  {
    SliceConcat(s, p, TagBytes(c.id) + U32Bytes(c.fileSize), TagBytes(c.fileType));
    SliceConcat(s, p, TagBytes(c.id), U32Bytes(c.fileSize));
    FourCCOfTagBytes(c.id);
    FourCCOfTagBytes(c.fileType);
  }

  /** Writing a decoded RIFF header back reproduces the 12 bytes read, up to
      the spelling `Data` of a tag, which is written `data`. */
  lemma EncodeOfParseRiffChunk(s: seq<byte>, p: nat)
    requires ParseRiffChunk(s, p).Ok?
    ensures var c := ParseRiffChunk(s, p).value.value;
      && WellFormedFourCC(c.id) && WellFormedFourCC(c.fileType)
      && EncodeRiffChunk(c) == Canonical(s[p..p + 4]) + s[p + 4..p + 8] + Canonical(s[p + 8..p + 12])
  {
    TagBytesOfFourCCOf(s[p..p + 4]);
    TagBytesOfFourCCOf(s[p + 8..p + 12]);
    U32BytesOfU32LE(s[p + 4..p + 8]);
  }

  /** The spelling a tag is written back with. */
  function Canonical(t: seq<byte>): (r: seq<byte>)
    ensures |r| == |t| || t == DATA_TAG_CAPITAL
    ensures FourCCOf(r) == FourCCOf(t)
  {
    FourCCOfCases(t);
    FourCCOfCases(DATA_TAG);
    if t == DATA_TAG_CAPITAL then DATA_TAG else t
  }

  // ------------------------------------------------------------- extension

  function EncodeExtendedInfo(e: ExtendedInfo): (r: seq<byte>)
    ensures |r| == 22 + |e.remainingData|
  {
    U16Bytes(e.bitsPerCodedSample) + U32Bytes(e.channelMask) + U128Bytes(e.subFormat) + e.remainingData
  }

  /** The fields of extension e stand in s at p, in the order they are
      written. */
  ghost predicate ExtendedInfoAt(s: seq<byte>, p: nat, e: ExtendedInfo) {
    && p + 22 + |e.remainingData| <= |s|
    && s[p..p + 2] == U16Bytes(e.bitsPerCodedSample)
    && s[p + 2..p + 6] == U32Bytes(e.channelMask)
    && s[p + 6..p + 22] == U128Bytes(e.subFormat)
    && s[p + 22..p + 22 + |e.remainingData|] == e.remainingData
  }

  /** A written extension stands field by field where it was written. */
  lemma ExtendedInfoAtOfEncode(s: seq<byte>, p: nat, e: ExtendedInfo)
    requires var n := 22 + |e.remainingData|; p + n <= |s| && s[p..p + n] == EncodeExtendedInfo(e)
    ensures ExtendedInfoAt(s, p, e)
  {
    var a, b, c := U16Bytes(e.bitsPerCodedSample), U32Bytes(e.channelMask), U128Bytes(e.subFormat);
    SliceConcat(s, p, a + b + c, e.remainingData);
    SliceConcat(s, p, a + b, c);
    SliceConcat(s, p, a, b);
  }

  /** An extension standing at p is what `read_extended_info` reads there
      when given its size. */
  lemma ParseExtendedInfoAt(s: seq<byte>, p: nat, e: ExtendedInfo)
    requires 22 + |e.remainingData| < 0x1_0000 && ExtendedInfoAt(s, p, e)
    ensures ParseExtendedInfo(s, p, (22 + |e.remainingData|) as u16)
            == Ok(Step(Some(e), p + 22 + |e.remainingData|))
  {
  }

  /** Decoding a written extension of the declared size gives it back. */
  lemma ParseExtendedInfoOfEncode(s: seq<byte>, p: nat, e: ExtendedInfo)
    requires 22 + |e.remainingData| < 0x1_0000
    requires var n := 22 + |e.remainingData|; p + n <= |s| && s[p..p + n] == EncodeExtendedInfo(e)
    ensures ParseExtendedInfo(s, p, (22 + |e.remainingData|) as u16)
            == Ok(Step(Some(e), p + 22 + |e.remainingData|))
  {
    ExtendedInfoAtOfEncode(s, p, e);
    ParseExtendedInfoAt(s, p, e);
  }

  /** Writing a decoded extension back reproduces the bytes it occupied. */
  lemma EncodeOfParseExtendedInfo(s: seq<byte>, p: nat, size: u16)
    requires ParseExtendedInfo(s, p, size).Ok? && ParseExtendedInfo(s, p, size).value.value.Some?
    ensures var st := ParseExtendedInfo(s, p, size).value;
      EncodeExtendedInfo(st.value.value) == s[p..st.next]
  {
    var n := p + size as int;
    var a, b, c, d := s[p..p + 2], s[p + 2..p + 6], s[p + 6..p + 22], s[p + 22..n];
    U16BytesOfU16LE(a);
    U32BytesOfU32LE(b);
    U128BytesOfU128LE(c);
    SliceSplit(s, p, p + 2, p + 6);
    SliceSplit(s, p, p + 6, p + 22);
    SliceSplit(s, p, p + 22, n);
  }

  // ------------------------------------------------------------ fmt chunk

  /** The bytes after the fixed fields: nothing when there is no extension,
      otherwise its size and the extension. */
  function EncodeFmtExtension(size: u16, ext: Option<ExtendedInfo>): (r: seq<byte>) {
    match ext
    case None => []
    case Some(e) => U16Bytes(size) + EncodeExtendedInfo(e)
  }

  /** The seven fixed fields as the 20 bytes after the tag. */
  function EncodeFmtFields(f: FmtChunk): (r: seq<byte>)
    ensures |r| == 20
  {
    U32Bytes(f.dataSize) + U16Bytes(FormatCode(f.format)) + U16Bytes(f.numChannels)
    + U32Bytes(f.sampleRate) + U32Bytes(f.byteRate) + U16Bytes(f.blockAlign)
    + U16Bytes(f.bitsPerRawSample)
  }

  /** The `fmt ` chunk whose fixed fields are the 20 bytes `fields`. */
  function FmtChunkOf(fields: seq<byte>, extraInfoSize: u16, extendedInfo: Option<ExtendedInfo>): (f: FmtChunk)
    requires |fields| == 20
  {
    FmtChunk(Fmt, U32LE(fields[0..4]), FormatOf(U16LE(fields[4..6])), U16LE(fields[6..8]),
             U32LE(fields[8..12]), U32LE(fields[12..16]), U16LE(fields[16..18]),
             U16LE(fields[18..20]), extraInfoSize, extendedInfo)
  }

  /** Reading written fixed fields gives them back. */
  lemma FmtChunkOfEncode(f: FmtChunk)
    requires f.id == Fmt && (f.format.Other? ==> !IsNamedFormat(f.format.code))
    ensures FmtChunkOf(EncodeFmtFields(f), f.extraInfoSize, f.extendedInfo) == f
  {
    FormatOfFormatCode(f.format);
  }

  /** Writing read fixed fields back reproduces the 20 bytes. */
  lemma EncodeOfFmtChunkOf(b: seq<byte>, extraInfoSize: u16, extendedInfo: Option<ExtendedInfo>)
    requires |b| == 20
    ensures EncodeFmtFields(FmtChunkOf(b, extraInfoSize, extendedInfo)) == b
  {
    U32BytesOfU32LE(b[0..4]);
    FormatCodeOfFormatOf(U16LE(b[4..6]));
    U16BytesOfU16LE(b[4..6]);
    U16BytesOfU16LE(b[6..8]);
    U32BytesOfU32LE(b[8..12]);
    U32BytesOfU32LE(b[12..16]);
    U16BytesOfU16LE(b[16..18]);
    U16BytesOfU16LE(b[18..20]);
    assert b == b[0..4] + b[4..6] + b[6..8] + b[8..12] + b[12..16] + b[16..18] + b[18..20];
  }

  /** The 20-byte block of fixed `fmt ` fields, cut where the field reads
      take them from the stream. */
  lemma FmtFieldsInPlace(s: seq<byte>, q: nat)
    requires q + 20 <= |s|
    ensures var b := s[q..q + 20];
      && b[0..4] == s[q..q + 4] && b[4..6] == s[q + 4..q + 6] && b[6..8] == s[q + 6..q + 8]
      && b[8..12] == s[q + 8..q + 12] && b[12..16] == s[q + 12..q + 16]
      && b[16..18] == s[q + 16..q + 18] && b[18..20] == s[q + 18..q + 20]
  {
    var b := s[q..q + 20];
    SliceWithin(s, q, b, 0, 4);
    SliceWithin(s, q, b, 4, 6);
    SliceWithin(s, q, b, 6, 8);
    SliceWithin(s, q, b, 8, 12);
    SliceWithin(s, q, b, 12, 16);
    SliceWithin(s, q, b, 16, 18);
    SliceWithin(s, q, b, 18, 20);
  }

  /** The fixed fields a decoded `fmt ` chunk holds are those of the 20
      bytes after its tag. */
  lemma ParseFmtChunkFields(s: seq<byte>, p: nat)
    requires ParseFmtChunk(s, p).Ok?
    ensures var f := ParseFmtChunk(s, p).value.value;
      f == FmtChunkOf(s[p + 4..p + 24], f.extraInfoSize, f.extendedInfo)
  {
    FmtFieldsInPlace(s, p + 4);
  }

  function EncodeFmtChunk(f: FmtChunk): (r: seq<byte>)
    ensures |r| == 24 + |EncodeFmtExtension(f.extraInfoSize, f.extendedInfo)|
  {
    FMT_TAG + EncodeFmtFields(f) + EncodeFmtExtension(f.extraInfoSize, f.extendedInfo)
  }

  /** A `fmt ` chunk the decoder can produce: an unknown format code is one
      the classifier does not name; without an extension the recorded size
      is 0; an extension's size covers it exactly, and its first four bytes
      do not spell a known tag, which the decoder would take for the next
      chunk. */
  predicate FmtChunkEncodable(f: FmtChunk) {
    && f.id == Fmt
    && (f.format.Other? ==> !IsNamedFormat(f.format.code))
    && match f.extendedInfo
       case None => f.extraInfoSize == 0
       case Some(e) =>
         && f.extraInfoSize as int == 22 + |e.remainingData|
         && !IsKnownTag(U16Bytes(f.extraInfoSize) + U16Bytes(e.bitsPerCodedSample))
  }

  /** Decoding a written extension decision gives it back. Without an
      extension the decoder only recognises that when a known tag follows. */
  lemma ParseFmtExtensionOfEncode(s: seq<byte>, p: nat, size: u16, ext: Option<ExtendedInfo>, n: nat)
    requires ext.None? ==> size == 0 && p + 4 <= |s| && IsKnownTag(s[p..p + 4])
    requires ext.Some? ==>
      && size as int == 22 + |ext.value.remainingData|
      && !IsKnownTag(U16Bytes(size) + U16Bytes(ext.value.bitsPerCodedSample))
    requires n == p + |EncodeFmtExtension(size, ext)| && n <= |s| && s[p..n] == EncodeFmtExtension(size, ext)
    ensures ParseFmtExtension(s, p) == Ok(Step((size, ext), n))
  {
    if ext.Some? {
      ExtensionLayoutOfEncode(s, p, size, ext.value);
      ParseFmtExtensionAt(s, p, size, ext.value, n);
    }
  }

  /** A written extension size and extension stand where they were
      written. */
  lemma ExtensionLayoutOfEncode(s: seq<byte>, p: nat, size: u16, e: ExtendedInfo)
    requires size as int == 22 + |e.remainingData|
    requires var enc := EncodeFmtExtension(size, Some(e)); p + |enc| <= |s| && s[p..p + |enc|] == enc
    ensures |EncodeFmtExtension(size, Some(e))| == 2 + size as int
    ensures p + 2 <= |s| && s[p..p + 2] == U16Bytes(size) && ExtendedInfoAt(s, p + 2, e)
    ensures s[p..p + 4] == U16Bytes(size) + U16Bytes(e.bitsPerCodedSample)
  {
    SliceConcat(s, p, U16Bytes(size), EncodeExtendedInfo(e));
    ExtendedInfoAtOfEncode(s, p + 2, e);
    SliceSplit(s, p, p + 2, p + 4);
  }

  /** An extension size followed by an extension that does not start like a
      known tag is what the extension decision reads. */
  lemma ParseFmtExtensionAt(s: seq<byte>, p: nat, size: u16, e: ExtendedInfo, n: nat)
    requires size as int == 22 + |e.remainingData| && n == p + 2 + size as int
    requires p + 2 <= |s| && s[p..p + 2] == U16Bytes(size) && ExtendedInfoAt(s, p + 2, e)
    requires s[p..p + 4] == U16Bytes(size) + U16Bytes(e.bitsPerCodedSample)
    requires !IsKnownTag(U16Bytes(size) + U16Bytes(e.bitsPerCodedSample))
    ensures ParseFmtExtension(s, p) == Ok(Step((size, Some(e)), n))
  {
    assert !IsKnownTag(s[p..p + 4]) && U16LE(s[p..p + 2]) == size;
    var r := ParseFmtExtension(s, p);
    assert r.Ok? && r.value.next == n && r.value.value.0 == size;
    var x := r.value.value.1.value;
    assert x.bitsPerCodedSample == e.bitsPerCodedSample && x.channelMask == e.channelMask;
    assert x.subFormat == e.subFormat && x.remainingData == e.remainingData;
  }

  /** What a decoded extension decision looks like: the facts
      `FmtChunkEncodable` asks for, and the bytes it occupied, which writing
      it back reproduces unless its size 0 was given explicitly. */
  lemma EncodeOfParseFmtExtension(s: seq<byte>, q: nat)
    requires ParseFmtExtension(s, q).Ok?
    ensures var st := ParseFmtExtension(s, q).value;
      var size, ext := st.value.0, st.value.1;
      && (ext.None? ==> size == 0 && (st.next == q || st.next == q + 2))
      && (ext.None? && st.next == q ==> q + 4 <= |s| && IsKnownTag(s[q..q + 4]))
      && (ext.Some? ==>
            && size as int == 22 + |ext.value.remainingData|
            && !IsKnownTag(U16Bytes(size) + U16Bytes(ext.value.bitsPerCodedSample))
            && EncodeFmtExtension(size, ext) == s[q..st.next])
  {
    var st := ParseFmtExtension(s, q).value;
    var size, ext := st.value.0, st.value.1;
    if ext.Some? {
      assert !IsKnownTag(s[q..q + 4]);
      U16BytesOfU16LE(s[q..q + 2]);
      U16BytesOfU16LE(s[q + 2..q + 4]);
      EncodeOfParseExtendedInfo(s, q + 2, size);
      SliceSplit(s, q, q + 2, q + 4);
      SliceSplit(s, q, q + 2, st.next);
    }
  }

  /** Decoding a written `fmt ` chunk gives it back and consumes exactly
      what was written, provided a chunk without an extension is followed
      by a known tag. */
  lemma ParseFmtChunkOfEncode(s: seq<byte>, p: nat, f: FmtChunk, q: nat)
    requires FmtChunkEncodable(f)
    requires q == p + |EncodeFmtChunk(f)| && q <= |s| && s[p..q] == EncodeFmtChunk(f)
    requires f.extendedInfo.None? ==> q + 4 <= |s| && IsKnownTag(s[q..q + 4])
    ensures ParseFmtChunk(s, p) == Ok(Step(f, q))
  {
    FmtPieces(s, p, f, q);
    ParseFmtExtensionOfEncode(s, p + 24, f.extraInfoSize, f.extendedInfo, q);
    ParseFmtChunkAt(s, p, f, q);
  }

  /** A written `fmt ` chunk in its three parts: tag, fixed fields,
      extension. */
  lemma FmtPieces(s: seq<byte>, p: nat, f: FmtChunk, q: nat)
    requires q == p + |EncodeFmtChunk(f)| && q <= |s| && s[p..q] == EncodeFmtChunk(f)
    ensures p + 24 <= q && s[p..p + 4] == FMT_TAG && s[p + 4..p + 24] == EncodeFmtFields(f)
    ensures var e := EncodeFmtExtension(f.extraInfoSize, f.extendedInfo);
      q == p + 24 + |e| && s[p + 24..q] == e
  {
    var e := EncodeFmtExtension(f.extraInfoSize, f.extendedInfo);
    SliceConcat(s, p, FMT_TAG + EncodeFmtFields(f), e);
    SliceConcat(s, p, FMT_TAG, EncodeFmtFields(f));
  }

  /** A `fmt ` tag, the fixed fields of f and a decodable extension decision
      are f. */
  lemma ParseFmtChunkAt(s: seq<byte>, p: nat, f: FmtChunk, q: nat)
    requires f.id == Fmt && (f.format.Other? ==> !IsNamedFormat(f.format.code))
    requires p + 24 <= |s| && s[p..p + 4] == FMT_TAG && s[p + 4..p + 24] == EncodeFmtFields(f)
    requires ParseFmtExtension(s, p + 24) == Ok(Step((f.extraInfoSize, f.extendedInfo), q))
    ensures ParseFmtChunk(s, p) == Ok(Step(f, q))
  {
    var r := ParseFmtChunk(s, p);
    assert r.Ok?;
    var g := r.value.value;
    assert g.extraInfoSize == f.extraInfoSize && g.extendedInfo == f.extendedInfo;
    ParseFmtChunkFields(s, p);
    FmtChunkOfEncode(f);
    assert g == f;
  }

  /** Every decoded `fmt ` chunk can be written back. Written back, it
      reproduces the bytes it was read from, except that an extension size
      of 0 given explicitly (where no known tag follows the fixed fields)
      loses its two bytes. */
  lemma EncodeOfParseFmtChunk(s: seq<byte>, p: nat)
    requires ParseFmtChunk(s, p).Ok?
    ensures var st := ParseFmtChunk(s, p).value;
      && FmtChunkEncodable(st.value)
      && (st.value.extendedInfo.Some? || st.next == p + 24 ==> EncodeFmtChunk(st.value) == s[p..st.next])
      && (st.value.extendedInfo.None? && st.next != p + 24 ==>
            st.next == p + 26 && EncodeFmtChunk(st.value) == s[p..p + 24])
  {
    var st := ParseFmtChunk(s, p).value;
    var f := st.value;
    ParseFmtChunkFields(s, p);
    EncodeOfFmtChunkOf(s[p + 4..p + 24], f.extraInfoSize, f.extendedInfo);
    EncodeOfParseFmtExtension(s, p + 24);
    SliceSplit(s, p, p + 4, p + 24);
    SliceSplit(s, p, p + 24, st.next);
  }

  // ----------------------------------------------------------- fact chunk

  /** A `fact` chunk the decoder can produce: its declared size covers the
      sample length and the bytes kept after it. */
  predicate FactChunkEncodable(c: FactChunk) {
    c.id == Fact && c.dataSize as int == 4 + |c.remainingData|
  }

  function EncodeFactChunk(c: FactChunk): (r: seq<byte>)
    ensures |r| == 12 + |c.remainingData|
  {
    FACT_TAG + U32Bytes(c.dataSize) + U32Bytes(c.sampleLength) + c.remainingData
  }

  /** An optional `fact` chunk: nothing when there is none. */
  function EncodeFact(fact: Option<FactChunk>): (r: seq<byte>) {
    match fact
    case None => []
    case Some(c) => EncodeFactChunk(c)
  }

  /** Decoding a written `fact` chunk gives it back and consumes exactly what
      was written; where none was written and no `fact` tag follows, the
      decoder finds none and leaves the cursor where it is. */
  lemma ParseFactChunkOfEncode(s: seq<byte>, p: nat, fact: Option<FactChunk>, q: nat)
    requires fact.Some? ==> FactChunkEncodable(fact.value)
    requires q == p + |EncodeFact(fact)| && q <= |s| && s[p..q] == EncodeFact(fact)
    requires fact.None? ==> p + 4 <= |s| && s[p..p + 4] != FACT_TAG
    ensures ParseFactChunk(s, p) == Ok(Step(fact, q))
  {
    if fact.Some? {
      var c := fact.value;
      var a, b := U32Bytes(c.dataSize), U32Bytes(c.sampleLength);
      SliceConcat(s, p, FACT_TAG + a + b, c.remainingData);
      SliceConcat(s, p, FACT_TAG + a, b);
      SliceConcat(s, p, FACT_TAG, a);
    }
  }

  /** Every decoded `fact` chunk can be written back, and written back it
      reproduces the bytes it was read from. */
  lemma EncodeOfParseFactChunk(s: seq<byte>, p: nat)
    requires ParseFactChunk(s, p).Ok? && ParseFactChunk(s, p).value.value.Some?
    ensures var st := ParseFactChunk(s, p).value;
      FactChunkEncodable(st.value.value) && EncodeFactChunk(st.value.value) == s[p..st.next]
  {
    var st := ParseFactChunk(s, p).value;
    var n := st.next;
    assert s[p..p + 4] == FACT_TAG;
    U32BytesOfU32LE(s[p + 4..p + 8]);
    U32BytesOfU32LE(s[p + 8..p + 12]);
    assert s[p..n] == s[p..p + 4] + s[p + 4..p + 8] + s[p + 8..p + 12] + s[p + 12..n];
  }

  // --------------------------------------------------------- other chunks

  function EncodeOtherChunk(c: OtherChunk): (r: seq<byte>)
    requires WellFormedFourCC(c.id)
    ensures |r| == 8 + |c.data|
  {
    TagBytes(c.id) + U32Bytes(c.dataSize) + c.data
  }

  /** The chunks one after another, in order. */
  function EncodeOtherChunks(cs: seq<OtherChunk>): (r: seq<byte>)
    requires OtherChunksWellFormed(cs)
  {
    if cs == [] then [] else EncodeOtherChunk(cs[0]) + EncodeOtherChunks(cs[1..])
  }

  /** Decoding written chunks followed by a `data` tag at n gives them back,
      with the cursor left in front of that tag. */
  lemma ParseOtherChunksOfEncode(s: seq<byte>, p: nat, cs: seq<OtherChunk>, n: nat)
    requires OtherChunksWellFormed(cs)
    requires n == p + |EncodeOtherChunks(cs)| && n + 4 <= |s|
    requires s[p..n] == EncodeOtherChunks(cs) && FourCCOf(s[n..n + 4]) == Data
    ensures ParseOtherChunks(s, p) == Ok(Step(cs, n))
  {
    LayoutOfEncode(s, p, cs, n);
    RoundsOfLayout(s, p, cs, n);
    assert ReadOtherChunk(s, n) == Ok(None);
    ParseOtherChunksOfRounds(s, p, cs, n);
  }

  /** The bytes of chunk c, not `data`, stand in s at p. */
  ghost predicate ChunkAt(s: seq<byte>, p: nat, c: OtherChunk) {
    && c.id != Data && WellFormedFourCC(c.id) && |c.data| == c.dataSize as int
    && p + 8 + |c.data| <= |s|
    && s[p..p + 4] == TagBytes(c.id)
    && s[p + 4..p + 8] == U32Bytes(c.dataSize)
    && s[p + 8..p + 8 + |c.data|] == c.data
  }

  /** The chunks cs stand one after another in s from p to n. */
  ghost predicate Layout(s: seq<byte>, p: nat, cs: seq<OtherChunk>, n: nat)
    decreases |cs|
  {
    if cs == [] then p == n
    else ChunkAt(s, p, cs[0]) && Layout(s, p + 8 + |cs[0].data|, cs[1..], n)
  }

  /** Successive rounds of the scan from p read exactly the chunks cs and
      end at n. */
  ghost predicate Rounds(s: seq<byte>, p: nat, cs: seq<OtherChunk>, n: nat)
    decreases |cs|
  {
    if cs == [] then p == n
    else
      var r := ReadOtherChunk(s, p);
      && r.Ok? && r.value.Some? && r.value.value.value == cs[0]
      && Rounds(s, r.value.value.next, cs[1..], n)
  }

  /** Rounds that end in front of a `data` tag are the whole scan. */
  lemma {:induction false} ParseOtherChunksOfRounds(s: seq<byte>, p: nat, cs: seq<OtherChunk>, n: nat)
    requires Rounds(s, p, cs, n) && ReadOtherChunk(s, n) == Ok(None)
    ensures ParseOtherChunks(s, p) == Ok(Step(cs, n))
    decreases |cs|
  {
    if cs != [] {
      var q := ReadOtherChunk(s, p).value.value.next;
      ParseOtherChunksOfRounds(s, q, cs[1..], n);
      ParseOtherChunksCons(s, p, cs[0], q, cs[1..], n);
      ConsSplit(cs);
    }
  }

  /** Chunks standing one after another are read one round each. */
  lemma {:induction false} RoundsOfLayout(s: seq<byte>, p: nat, cs: seq<OtherChunk>, n: nat)
    requires Layout(s, p, cs, n)
    ensures Rounds(s, p, cs, n)
    decreases |cs|
  {
    if cs != [] {
      var q := p + 8 + |cs[0].data|;
      ReadOtherChunkAt(s, p, cs[0], q);
      RoundsOfLayout(s, q, cs[1..], n);
      RoundsCons(s, p, cs, q, n);
    }
  }

  /** One round followed by the rest of the rounds. */
  lemma RoundsCons(s: seq<byte>, p: nat, cs: seq<OtherChunk>, q: nat, n: nat)
    requires cs != [] && ReadOtherChunk(s, p) == Ok(Some(Step(cs[0], q)))
    requires Rounds(s, q, cs[1..], n)
    ensures Rounds(s, p, cs, n)
  {
  }

  /** One chunk standing at p is what one round of the scan reads there. */
  lemma ReadOtherChunkAt(s: seq<byte>, p: nat, c: OtherChunk, q: nat)
    requires ChunkAt(s, p, c) && q == p + 8 + |c.data|
    ensures ReadOtherChunk(s, p) == Ok(Some(Step(c, q)))
  {
    FourCCOfTagBytes(c.id);
  }

  /** Written chunks stand one after another. */
  lemma {:induction false} LayoutOfEncode(s: seq<byte>, p: nat, cs: seq<OtherChunk>, n: nat)
    requires OtherChunksWellFormed(cs)
    requires n == p + |EncodeOtherChunks(cs)| && n <= |s| && s[p..n] == EncodeOtherChunks(cs)
    ensures Layout(s, p, cs, n)
    decreases |cs|
  {
    if cs != [] {
      FirstOtherChunkOfEncode(s, p, cs, n);
      LayoutOfEncode(s, p + 8 + |cs[0].data|, cs[1..], n);
    }
  }

  /** The first of several written chunks stands at p, the others after it. */
  lemma FirstOtherChunkOfEncode(s: seq<byte>, p: nat, cs: seq<OtherChunk>, n: nat)
    requires cs != [] && OtherChunksWellFormed(cs)
    requires n == p + |EncodeOtherChunks(cs)| && n <= |s| && s[p..n] == EncodeOtherChunks(cs)
    ensures ChunkAt(s, p, cs[0]) && OtherChunksWellFormed(cs[1..])
    ensures var q := p + 8 + |cs[0].data|;
      n == q + |EncodeOtherChunks(cs[1..])| && s[q..n] == EncodeOtherChunks(cs[1..])
  {
    var c, rest := cs[0], cs[1..];
    assert forall i :: 0 <= i < |rest| ==> rest[i] == cs[i + 1];
    assert OtherChunksWellFormed(rest);
    assert EncodeOtherChunks(cs) == EncodeOtherChunk(c) + EncodeOtherChunks(rest);
    SliceConcat(s, p, EncodeOtherChunk(c), EncodeOtherChunks(rest));
    ChunkAtOfEncode(s, p, c);
  }

  /** A written chunk stands field by field where it was written. */
  lemma ChunkAtOfEncode(s: seq<byte>, p: nat, c: OtherChunk)
    requires c.id != Data && WellFormedFourCC(c.id) && |c.data| == c.dataSize as int
    requires var e := EncodeOtherChunk(c); p + |e| <= |s| && s[p..p + |e|] == e
    ensures ChunkAt(s, p, c)
  {
    SliceConcat(s, p, TagBytes(c.id) + U32Bytes(c.dataSize), c.data);
    SliceConcat(s, p, TagBytes(c.id), U32Bytes(c.dataSize));
  }

  /** Writing the scanned chunks back reproduces the bytes they were read
      from. */
  lemma {:induction false} EncodeOfParseOtherChunks(s: seq<byte>, p: nat)
    requires ParseOtherChunks(s, p).Ok?
    ensures OtherChunksWellFormed(ParseOtherChunks(s, p).value.value)
    ensures var st := ParseOtherChunks(s, p).value;
      EncodeOtherChunks(st.value) == s[p..st.next]
    decreases |s| - p
  {
    OtherChunksAreWellFormed(s, p);
    var first := ReadOtherChunk(s, p).value;
    if first.Some? {
      var c, q := first.value.value, first.value.next;
      ParseOtherChunksUncons(s, p);
      var rest := ParseOtherChunks(s, q).value;
      EncodeOfParseOtherChunks(s, q);
      EncodeOfReadOtherChunk(s, p);
      EncodeOtherChunksCons(c, rest.value);
      SliceSplit(s, p, q, rest.next);
    }
  }

  /** A non-empty sequence is its head in front of its tail. */
  lemma ConsSplit<T>(xs: seq<T>)
    requires xs != []
    ensures [xs[0]] + xs[1..] == xs
  {
  }

  /** The chunks written one after another. */
  lemma EncodeOtherChunksCons(c: OtherChunk, cs: seq<OtherChunk>)
    requires OtherChunksWellFormed([c] + cs)
    ensures c.id != Data && WellFormedFourCC(c.id) && |c.data| == c.dataSize as int
    ensures OtherChunksWellFormed(cs)
    ensures EncodeOtherChunks([c] + cs) == EncodeOtherChunk(c) + EncodeOtherChunks(cs)
  {
    assert ([c] + cs)[0] == c && ([c] + cs)[1..] == cs;
    assert forall i :: 0 <= i < |cs| ==> cs[i] == ([c] + cs)[i + 1];
  }

  /** Writing the chunk one round of the scan read reproduces its bytes. */
  lemma EncodeOfReadOtherChunk(s: seq<byte>, p: nat)
    requires ReadOtherChunk(s, p).Ok? && ReadOtherChunk(s, p).value.Some?
    ensures var st := ReadOtherChunk(s, p).value.value;
      EncodeOtherChunk(st.value) == s[p..st.next]
  {
    var st := ReadOtherChunk(s, p).value.value;
    TagBytesOfFourCCOf(s[p..p + 4]);
    U32BytesOfU32LE(s[p + 4..p + 8]);
    assert s[p..st.next] == s[p..p + 4] + s[p + 4..p + 8] + s[p + 8..st.next];
  }

  /** A round that yields a chunk puts it in front of what the rest of the
      scan yields. */
  lemma ParseOtherChunksCons(s: seq<byte>, p: nat, c: OtherChunk, q: nat, rest: seq<OtherChunk>, n: nat)
    requires ReadOtherChunk(s, p) == Ok(Some(Step(c, q)))
    requires ParseOtherChunks(s, q) == Ok(Step(rest, n))
    ensures ParseOtherChunks(s, p) == Ok(Step([c] + rest, n))
  {
  }

  /** A successful scan whose first round yields a chunk is that chunk in
      front of a successful scan of the rest. */
  lemma ParseOtherChunksUncons(s: seq<byte>, p: nat)
    requires ParseOtherChunks(s, p).Ok?
    requires ReadOtherChunk(s, p).Ok? && ReadOtherChunk(s, p).value.Some?
    ensures var st := ReadOtherChunk(s, p).value.value;
      && ParseOtherChunks(s, st.next).Ok?
      && ParseOtherChunks(s, p).value
         == Step([st.value] + ParseOtherChunks(s, st.next).value.value, ParseOtherChunks(s, st.next).value.next)
  {
  }

  // ----------------------------------------------------------- data chunk

  function EncodeDataChunk(c: DataChunk): (r: seq<byte>)
    ensures |r| == 8
  {
    DATA_TAG + U32Bytes(c.dataSize)
  }

  /** Decoding a written `data` header gives it back, its pad byte being the
      parity of its size, and consumes its 8 bytes. */
  lemma ParseDataChunkOfEncode(s: seq<byte>, p: nat, c: DataChunk, n: nat)
    requires c.id == Data && c.padByte == PadByte(c.dataSize)
    requires n == p + 8 && n <= |s| && s[p..n] == EncodeDataChunk(c)
    ensures p + 4 <= |s| && FourCCOf(s[p..p + 4]) == Data
    ensures ParseDataChunk(s, p) == Ok(Step(c, n))
  {
    SliceConcat(s, p, DATA_TAG, U32Bytes(c.dataSize));
    FourCCOfCases(DATA_TAG);
  }

  /** Writing a decoded `data` header back reproduces its 8 bytes, the tag
      in its canonical spelling. */
  lemma EncodeOfParseDataChunk(s: seq<byte>, p: nat)
    requires ParseDataChunk(s, p).Ok? && ParseDataChunk(s, p).value.value.id == Data
    ensures EncodeDataChunk(ParseDataChunk(s, p).value.value)
            == Canonical(s[p..p + 4]) + s[p + 4..p + 8]
  {
    FourCCOfCases(s[p..p + 4]);
    U32BytesOfU32LE(s[p + 4..p + 8]);
  }

  // ------------------------------------------------------------- document

  /** A document whose every chunk is one the decoder produces, and which
      has no `fact` chunk unless it says so: without one, the next chunk
      must not be a `fact` chunk either. */
  predicate HeaderEncodable(d: Document) {
    && d.riff.id == Riff && d.riff.fileType == Wave
    && FmtChunkEncodable(d.fmt)
    && (d.fact.Some? ==> FactChunkEncodable(d.fact.value))
    && OtherChunksWellFormed(d.others)
    && d.data.id == Data && d.data.padByte == PadByte(d.data.dataSize)
    && (d.fact.None? && d.others != [] ==> d.others[0].id != Fact)
  }

  /** The identifier of the chunk written right after the `fmt ` chunk. */
  function FollowingTag(d: Document): (id: FourCC) {
    if d.fact.Some? then Fact else if d.others != [] then d.others[0].id else Data
  }

  /** A document that decodes back from its own encoding, where a `fmt `
      chunk without extension ends after its 16-byte body. The decoder
      tells that apart from an extension only by peeking at the next tag,
      so the chunk written next must have a known one. */
  predicate DocumentEncodable(d: Document) {
    && HeaderEncodable(d)
    && (d.fmt.extendedInfo.None? ==> !FollowingTag(d).Other?)
  }

  /** The whole header: RIFF header, `fmt `, `fact` if any, the other
      chunks, and the `data` header, after which the samples follow. */
  function Encode(d: Document): (r: seq<byte>)
    requires WellFormedFourCC(d.riff.id) && WellFormedFourCC(d.riff.fileType)
    requires OtherChunksWellFormed(d.others)
    ensures |r| >= 12 + 24 + 8
  {
    EncodeRiffChunk(d.riff) + EncodeFmtChunk(d.fmt) + EncodeFact(d.fact)
    + EncodeOtherChunks(d.others) + EncodeDataChunk(d.data)
  }

  /** Decoding a written header, whatever samples follow it, gives the
      document back and leaves the cursor at the first sample. */
  lemma DecodeOfEncode(s: seq<byte>, p: nat, d: Document, n: nat)
    requires DocumentEncodable(d)
    requires n == p + |Encode(d)| && n <= |s| && s[p..n] == Encode(d)
    ensures Decode(s, p) == Ok(Step(d, n))
  {
    var q1 := p + 12;
    var q2 := q1 + |EncodeFmtChunk(d.fmt)|;
    var q3 := q2 + |EncodeFact(d.fact)|;
    var q4 := q3 + |EncodeOtherChunks(d.others)|;
    DocumentLayout(s, p, d, q1, q2, q3, q4, n);
    DecodeOfPieces(s, p, d, q1, q2, q3, q4, n);
  }

  /** The five parts of a written header stand one after another. */
  lemma DocumentLayout(s: seq<byte>, p: nat, d: Document, q1: nat, q2: nat, q3: nat, q4: nat, n: nat)
    requires WellFormedFourCC(d.riff.id) && WellFormedFourCC(d.riff.fileType)
    requires OtherChunksWellFormed(d.others)
    requires n == p + |Encode(d)| && n <= |s| && s[p..n] == Encode(d)
    requires q1 == p + 12 && q2 == q1 + |EncodeFmtChunk(d.fmt)| && q3 == q2 + |EncodeFact(d.fact)|
    requires q4 == q3 + |EncodeOtherChunks(d.others)|
    ensures n == q4 + 8
    ensures s[p..q1] == EncodeRiffChunk(d.riff) && s[q1..q2] == EncodeFmtChunk(d.fmt)
    ensures s[q2..q3] == EncodeFact(d.fact) && s[q3..q4] == EncodeOtherChunks(d.others)
    ensures s[q4..n] == EncodeDataChunk(d.data)
  {
    SliceConcat5(s, p, EncodeRiffChunk(d.riff), EncodeFmtChunk(d.fmt), EncodeFact(d.fact),
                 EncodeOtherChunks(d.others), EncodeDataChunk(d.data), q1, q2, q3, q4, n);
  }

  /** The five parts of a written header, each starting where the one
      before it ends, decode to the document. */
  lemma DecodeOfPieces(s: seq<byte>, p: nat, d: Document, q1: nat, q2: nat, q3: nat, q4: nat, n: nat)
    requires DocumentEncodable(d)
    requires q1 == p + 12 && q2 == q1 + |EncodeFmtChunk(d.fmt)| && q3 == q2 + |EncodeFact(d.fact)|
    requires q4 == q3 + |EncodeOtherChunks(d.others)| && n == q4 + 8 && n <= |s|
    requires s[p..q1] == EncodeRiffChunk(d.riff) && s[q1..q2] == EncodeFmtChunk(d.fmt)
    requires s[q2..q3] == EncodeFact(d.fact) && s[q3..q4] == EncodeOtherChunks(d.others)
    requires s[q4..n] == EncodeDataChunk(d.data)
    ensures Decode(s, p) == Ok(Step(d, n))
  {
    FollowingFmt(s, d, q2, q3, q4, n);
    assert d.fmt.extendedInfo.None? ==> IsKnownTag(s[q2..q2 + 4]);
    ParseRiffChunkOfEncode(s, p, d.riff, q1);
    ParseFmtChunkOfEncode(s, q1, d.fmt, q2);
    ParseFactChunkOfEncode(s, q2, d.fact, q3);
    ParseDataChunkOfEncode(s, q4, d.data, n);
    ParseOtherChunksOfEncode(s, q3, d.others, q4);
    DecodeOfParts(s, p, d, q1, q2, q3, q4, n);
  }

  /** The tag that follows the `fmt ` chunk of a written header is `fact`,
      or the first other chunk's, or `data`; it is `fact` only when the
      document has a `fact` chunk. */
  lemma FollowingFmt(s: seq<byte>, d: Document, q2: nat, q3: nat, q4: nat, n: nat)
    requires HeaderEncodable(d)
    requires q3 == q2 + |EncodeFact(d.fact)| && q4 == q3 + |EncodeOtherChunks(d.others)|
    requires n == q4 + 8 && n <= |s|
    requires s[q2..q3] == EncodeFact(d.fact) && s[q3..q4] == EncodeOtherChunks(d.others)
    requires s[q4..n] == EncodeDataChunk(d.data)
    ensures q2 + 4 <= |s|
    ensures FourCCOf(s[q2..q2 + 4]) == FollowingTag(d)
    ensures d.fact.None? ==> s[q2..q2 + 4] != FACT_TAG
  {
    FourCCOfCases(FACT_TAG);
    if d.fact.Some? {
      FactTagAt(s, q2, d.fact.value, q3);
    } else if d.others != [] {
      FirstOtherChunkOfEncode(s, q3, d.others, q4);
      FourCCOfTagBytes(d.others[0].id);
    } else {
      ParseDataChunkOfEncode(s, q4, d.data, n);
    }
  }

  /** A written `fact` chunk starts with the `fact` tag. */
  lemma FactTagAt(s: seq<byte>, p: nat, c: FactChunk, q: nat)
    requires q == p + |EncodeFactChunk(c)| && q <= |s| && s[p..q] == EncodeFactChunk(c)
    ensures p + 4 <= |s| && FourCCOf(s[p..p + 4]) == Fact
  {
    SliceWithin(s, p, EncodeFactChunk(c), 0, 4);
    FourCCOfCases(FACT_TAG);
  }

  /** The chunk decoders, run one after another over a header whose every
      chunk decodes, decode the document. */
  lemma DecodeOfParts(s: seq<byte>, p: nat, d: Document, q1: nat, q2: nat, q3: nat, q4: nat, n: nat)
    requires d.riff.id == Riff && d.riff.fileType == Wave && d.fmt.id == Fmt
    requires ParseRiffChunk(s, p) == Ok(Step(d.riff, q1))
    requires ParseFmtChunk(s, q1) == Ok(Step(d.fmt, q2))
    requires ParseFactChunk(s, q2) == Ok(Step(d.fact, q3))
    requires ParseOtherChunks(s, q3) == Ok(Step(d.others, q4))
    requires ParseDataChunk(s, q4) == Ok(Step(d.data, n))
    ensures Decode(s, p) == Ok(Step(d, n))
  {
    assert DecodeAfterFmt(s, d.riff, d.fmt, q2) == Ok(Step(d, n));
    assert DecodeChunks(s, d.riff, q1) == Ok(Step(d, n));
  }

  // ------------------------------------- fmt chunk with explicit size 0

  /** A `fmt ` chunk without extension written in its 18-byte form: the
      fixed fields followed by an explicit extension size of 0. */
  function EncodeFmtChunkExplicitZero(f: FmtChunk): (r: seq<byte>)
    ensures |r| == 26
  {
    FMT_TAG + EncodeFmtFields(f) + [0, 0]
  }

  /** An explicit extension size 0 never looks like a tag, so the decoder
      reads it as the size and finds no extension, whatever follows. */
  lemma ParseFmtExtensionOfExplicitZero(s: seq<byte>, p: nat, n: nat)
    requires n == p + 2 && n + 2 <= |s| && s[p..n] == [0, 0]
    ensures ParseFmtExtension(s, p) == Ok(Step((0, None), n))
  {
    assert s[p..p + 4][0] == s[p..n][0] == 0;
    assert !IsKnownTag(s[p..p + 4]);
    assert s[p..p + 2] == [0, 0];
  }

  /** Decoding a `fmt ` chunk written in its 18-byte form gives it back,
      whatever chunk follows. */
  lemma ParseFmtChunkOfEncodeExplicitZero(s: seq<byte>, p: nat, f: FmtChunk, q: nat)
    requires FmtChunkEncodable(f) && f.extendedInfo.None?
    requires q == p + 26 && q + 2 <= |s| && s[p..q] == EncodeFmtChunkExplicitZero(f)
    ensures ParseFmtChunk(s, p) == Ok(Step(f, q))
  {
    SliceConcat(s, p, FMT_TAG + EncodeFmtFields(f), [0, 0]);
    SliceConcat(s, p, FMT_TAG, EncodeFmtFields(f));
    ParseFmtExtensionOfExplicitZero(s, p + 24, q);
    ParseFmtChunkAt(s, p, f, q);
  }

  /** The whole header, with a `fmt ` chunk in its 18-byte form. */
  function EncodeExplicitZero(d: Document): (r: seq<byte>)
    requires WellFormedFourCC(d.riff.id) && WellFormedFourCC(d.riff.fileType)
    requires OtherChunksWellFormed(d.others)
    ensures |r| >= 12 + 26 + 8
  {
    EncodeRiffChunk(d.riff) + EncodeFmtChunkExplicitZero(d.fmt) + EncodeFact(d.fact)
    + EncodeOtherChunks(d.others) + EncodeDataChunk(d.data)
  }

  /** Decoding a written header whose `fmt ` chunk has no extension and
      states its size 0 gives the document back, whatever chunks follow the
      `fmt ` chunk, unknown ones such as `LIST` included. */
  lemma DecodeOfEncodeExplicitZero(s: seq<byte>, p: nat, d: Document, n: nat)
    requires HeaderEncodable(d) && d.fmt.extendedInfo.None?
    requires n == p + |EncodeExplicitZero(d)| && n <= |s| && s[p..n] == EncodeExplicitZero(d)
    ensures Decode(s, p) == Ok(Step(d, n))
  {
    var q1 := p + 12;
    var q2 := q1 + 26;
    var q3 := q2 + |EncodeFact(d.fact)|;
    var q4 := q3 + |EncodeOtherChunks(d.others)|;
    SliceConcat5(s, p, EncodeRiffChunk(d.riff), EncodeFmtChunkExplicitZero(d.fmt), EncodeFact(d.fact),
                 EncodeOtherChunks(d.others), EncodeDataChunk(d.data), q1, q2, q3, q4, n);
    DecodeOfPiecesExplicitZero(s, p, d, q1, q2, q3, q4, n);
  }

  /** The five parts of a header written with an 18-byte `fmt ` chunk,
      each starting where the one before it ends, decode to the document. */
  lemma DecodeOfPiecesExplicitZero(s: seq<byte>, p: nat, d: Document, q1: nat, q2: nat, q3: nat, q4: nat, n: nat)
    requires HeaderEncodable(d) && d.fmt.extendedInfo.None?
    requires q1 == p + 12 && q2 == q1 + 26 && q3 == q2 + |EncodeFact(d.fact)|
    requires q4 == q3 + |EncodeOtherChunks(d.others)| && n == q4 + 8 && n <= |s|
    requires s[p..q1] == EncodeRiffChunk(d.riff) && s[q1..q2] == EncodeFmtChunkExplicitZero(d.fmt)
    requires s[q2..q3] == EncodeFact(d.fact) && s[q3..q4] == EncodeOtherChunks(d.others)
    requires s[q4..n] == EncodeDataChunk(d.data)
    ensures Decode(s, p) == Ok(Step(d, n))
  {
    FollowingFmt(s, d, q2, q3, q4, n);
    ParseRiffChunkOfEncode(s, p, d.riff, q1);
    ParseFmtChunkOfEncodeExplicitZero(s, q1, d.fmt, q2);
    ParseFactChunkOfEncode(s, q2, d.fact, q3);
    ParseDataChunkOfEncode(s, q4, d.data, n);
    ParseOtherChunksOfEncode(s, q3, d.others, q4);
    DecodeOfParts(s, p, d, q1, q2, q3, q4, n);
  }
}
