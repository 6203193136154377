/** The values a RIFF/WAVE header decodes into: the four-character codes and
    audio format codes with their classifiers, one record per chunk, the
    decoded document, and the error taxonomy (src/lib.rs, src/error.rs). */
module Riff {
  import opened LittleEndian

  // ---------------------------------------------------------------- FourCC

  const RIFF_TAG: seq<byte> := [0x52, 0x49, 0x46, 0x46]        // "RIFF"
  const WAVE_TAG: seq<byte> := [0x57, 0x41, 0x56, 0x45]        // "WAVE"
  const FMT_TAG: seq<byte> := [0x66, 0x6d, 0x74, 0x20]         // "fmt "
  const DATA_TAG: seq<byte> := [0x64, 0x61, 0x74, 0x61]        // "data"
  const DATA_TAG_CAPITAL: seq<byte> := [0x44, 0x61, 0x74, 0x61] // "Data"
  const FACT_TAG: seq<byte> := [0x66, 0x61, 0x63, 0x74]        // "fact"

  /** True of the byte strings the classifier gives a variant of its own. */
  predicate IsKnownTag(t: seq<byte>) {
    !FourCCOf(t).Other?
  }

  /** A chunk identifier. `Other` keeps the raw bytes of a tag the reader does
      not know. */
  datatype FourCC = Riff | Fmt | Data | Wave | Fact | Other(raw: seq<byte>)

  /** `FourCC::from`: the six known spellings map to their variants (both
      `data` and `Data` to `Data`), every other byte string to `Other`.
      The spellings are compared byte by byte; FourCCOfCases restates the
      result in terms of the tag constants above. */
  function FourCCOf(t: seq<byte>): (c: FourCC)
  {
    if |t| != 4 then FourCC.Other(t)
    else if t[0] == 0x52 && t[1] == 0x49 && t[2] == 0x46 && t[3] == 0x46 then Riff
    else if t[0] == 0x57 && t[1] == 0x41 && t[2] == 0x56 && t[3] == 0x45 then Wave
    else if t[0] == 0x66 && t[1] == 0x6d && t[2] == 0x74 && t[3] == 0x20 then Fmt
    else if (t[0] == 0x64 || t[0] == 0x44) && t[1] == 0x61 && t[2] == 0x74 && t[3] == 0x61 then Data
    else if t[0] == 0x66 && t[1] == 0x61 && t[2] == 0x63 && t[3] == 0x74 then Fact
    else FourCC.Other(t)
  }

  /** What the classifier maps each byte string to. */
  lemma FourCCOfCases(t: seq<byte>)
    ensures FourCCOf(t) == Riff <==> t == RIFF_TAG
    ensures FourCCOf(t) == Wave <==> t == WAVE_TAG
    ensures FourCCOf(t) == Fmt <==> t == FMT_TAG
    ensures FourCCOf(t) == Data <==> t == DATA_TAG || t == DATA_TAG_CAPITAL
    ensures FourCCOf(t) == Fact <==> t == FACT_TAG
    ensures FourCCOf(t).Other? <==>
      t != RIFF_TAG && t != WAVE_TAG && t != FMT_TAG && t != DATA_TAG && t != DATA_TAG_CAPITAL && t != FACT_TAG
    ensures FourCCOf(t).Other? ==> FourCCOf(t).raw == t
  {
  }

  /** A FourCC the classifier can produce from four bytes. */
  predicate WellFormedFourCC(f: FourCC) {
    f.Other? ==> |f.raw| == 4 && !IsKnownTag(f.raw)
  }

  /** The bytes a chunk with this identifier is written with; `Data` is
      written in its lower-case spelling. */
  function TagBytes(f: FourCC): (r: seq<byte>)
    requires WellFormedFourCC(f)
    ensures |r| == 4
  {
    match f
    case Riff => RIFF_TAG
    case Wave => WAVE_TAG
    case Fmt => FMT_TAG
    case Data => DATA_TAG
    case Fact => FACT_TAG
    case Other(raw) => raw
  }

  /** Writing an identifier and classifying the bytes gives it back. */
  lemma FourCCOfTagBytes(f: FourCC)
    requires WellFormedFourCC(f)
    ensures FourCCOf(TagBytes(f)) == f
  {
  }

  /** Classifying four bytes and writing the identifier back reproduces them,
      except for the spelling `Data`, which comes back as `data`. */
  lemma TagBytesOfFourCCOf(t: seq<byte>)
    requires |t| == 4
    ensures WellFormedFourCC(FourCCOf(t))
    ensures TagBytes(FourCCOf(t)) == (if t == DATA_TAG_CAPITAL then DATA_TAG else t)
  {
  }

  // ---------------------------------------------------------------- Format

  /** The `wFormatTag` of a `fmt ` chunk; unknown codes are kept. */
  datatype Format =
    | UncompressedPCM
    | IeeeFloatingPoint
    | G711ALaw
    | G711ULaw
    | ExtendedWave
    | Other(code: u16)

  /** True of the codes `Format::from` names. */
  predicate IsNamedFormat(c: u16) {
    c == 1 || c == 3 || c == 6 || c == 7 || c == 65534
  }

  /** `Format::from`. */
  function FormatOf(c: u16): (r: Format)
    ensures r == UncompressedPCM <==> c == 1
    ensures r == IeeeFloatingPoint <==> c == 3
    ensures r == G711ALaw <==> c == 6
    ensures r == G711ULaw <==> c == 7
    ensures r == ExtendedWave <==> c == 65534
    ensures r.Other? <==> !IsNamedFormat(c)
    ensures r.Other? ==> r.code == c
  {
    match c
    case 1 => UncompressedPCM
    case 3 => IeeeFloatingPoint
    case 6 => G711ALaw
    case 7 => G711ULaw
    case 65534 => ExtendedWave
    case _ => Format.Other(c)
  }

  /** The code a format is written with. */
  function FormatCode(f: Format): (code: u16) {
    match f
    case UncompressedPCM => 1
    case IeeeFloatingPoint => 3
    case G711ALaw => 6
    case G711ULaw => 7
    case ExtendedWave => 65534
    case Other(c) => c
  }

  /** No code is lost by the classification: it can always be recovered. */
  lemma FormatCodeOfFormatOf(c: u16)
    ensures FormatCode(FormatOf(c)) == c
  {
  }

  /** Every format the classifier can produce comes back from its code. */
  lemma FormatOfFormatCode(f: Format)
    requires f.Other? ==> !IsNamedFormat(f.code)
    ensures FormatOf(FormatCode(f)) == f
  {
  }

  // ---------------------------------------------------------------- chunks

  /** The top-level header: `RIFF`, the size of what follows, `WAVE`. */
  datatype RiffChunk = RiffChunk(id: FourCC, fileSize: u32, fileType: FourCC)

  /** The optional extension of a `fmt ` chunk (WAVE_FORMAT_EXTENSIBLE). */
  datatype ExtendedInfo = ExtendedInfo(
    bitsPerCodedSample: u16,
    channelMask: u32,
    subFormat: u128,
    remainingData: seq<byte>)

  datatype Option<T> = None | Some(value: T)

  datatype FmtChunk = FmtChunk(
    id: FourCC,
    dataSize: u32,
    format: Format,
    numChannels: u16,
    sampleRate: u32,
    byteRate: u32,
    blockAlign: u16,
    bitsPerRawSample: u16,
    extraInfoSize: u16,
    extendedInfo: Option<ExtendedInfo>)

  datatype FactChunk = FactChunk(
    id: FourCC,
    dataSize: u32,
    sampleLength: u32,
    remainingData: seq<byte>)

  /** A chunk the reader does not interpret, kept with its whole payload. */
  datatype OtherChunk = OtherChunk(id: FourCC, dataSize: u32, data: seq<byte>)

  /** The header of the `data` chunk; the payload itself stays in the stream. */
  datatype DataChunk = DataChunk(id: FourCC, dataSize: u32, padByte: byte)

  /** Everything `RiffWaveReader::new` decodes, without the reader itself. */
  datatype Document = Document(
    riff: RiffChunk,
    fmt: FmtChunk,
    fact: Option<FactChunk>,
    others: seq<OtherChunk>,
    data: DataChunk)

  // ---------------------------------------------------------------- errors

  /** `Error` of src/error.rs. Every short read is `IOError`.
      `InvalidFactChunk` is not in the source: it names the rejection of a
      `fact` chunk whose declared size is below 4, where the source subtracts
      without a check. */
  datatype Error =
    | NotRiff
    | NotWave
    | InvalidFmtChunk
    | InvalidExtendedInfo
    | InvalidFactChunk
    | IOError

  datatype Result<T> = Ok(value: T) | Err(error: Error) {
    predicate IsFailure() {
      Err?
    }

    function PropagateFailure<U>(): Result<U>
      requires Err?
    {
      Err(error)
    }

    function Extract(): T
      requires Ok?
    {
      value
    }
  }

  /** A decoded value together with the stream position after it. */
  datatype Step<T> = Step(value: T, next: nat)
}
