/** `read_fact_chunk` as the source writes it. The number of payload bytes
    it reads is `data_size - 4`, an unchecked u32 subtraction: a declared
    size below 4 panics in a debug build and wraps around in a release
    build, where the reader then asks for about four gigabytes. The rest of
    the model uses Parse.ParseFactChunk, which rejects such a chunk. */
module Findings {
  import opened LittleEndian
  import opened Riff
  import opened Parse

  /** `(data_size - 4) as usize` with release-build u32 arithmetic. */
  function WrappedRemainingSize(dataSize: u32): (r: nat)
    ensures r < 0x1_0000_0000
    ensures dataSize >= 4 ==> r == dataSize as int - 4
    ensures dataSize < 4 ==> r == 0x1_0000_0000 + dataSize as int - 4 && r >= 0xFFFF_FFFC
  {
    (dataSize as int - 4) % 0x1_0000_0000
  }

  /** `read_fact_chunk` in a release build: the same steps as
      Parse.ParseFactChunk, without the check on the declared size. */
  function ParseFactChunkAsWritten(s: seq<byte>, p: nat): (r: Result<Step<Option<FactChunk>>>)
    ensures r.Err? ==> r.error == IOError
    ensures r.Ok? && r.value.value.Some? ==>
      var c := r.value.value.value;
      |c.remainingData| == WrappedRemainingSize(c.dataSize)
  {
    var id :- ReadFourCC(s, p);
    if id.value != Fact then Ok(Step(None, id.next - 4))
    else
      var dataSize :- ReadU32(s, id.next);
      var sampleLength :- ReadU32(s, dataSize.next);
      var remaining :- ReadBytes(s, sampleLength.next, WrappedRemainingSize(dataSize.value));
      Ok(Step(Some(FactChunk(id.value, dataSize.value, sampleLength.value, remaining.value)),
              remaining.next))
  }

  /** A `fact` chunk that declares fewer than 4 bytes of content. */
  predicate ShortFactAt(s: seq<byte>, p: nat) {
    p + 12 <= |s| && s[p..p + 4] == FACT_TAG && U32LE(s[p + 4..p + 8]) < 4
  }

  /** The source and the corrected decoder differ exactly on short `fact`
      chunks. */
  lemma AsWrittenDiffersOnlyOnShortFact(s: seq<byte>, p: nat)
    ensures ParseFactChunkAsWritten(s, p) == ParseFactChunk(s, p) <==> !ShortFactAt(s, p)
  {
    FourCCOfCases(if p + 4 <= |s| then s[p..p + 4] else []);
  }

  /** On a short `fact` chunk the source either fails with an I/O error,
      after asking for at least 0xFFFF_FFFC bytes, or returns a chunk whose
      payload length does not match its declared size, which the corrected
      decoder never does. */
  lemma ShortFactAsWritten(s: seq<byte>, p: nat)
    requires ShortFactAt(s, p)
    ensures var r := ParseFactChunkAsWritten(s, p);
      && (r.Ok? <==> p + 12 + WrappedRemainingSize(U32LE(s[p + 4..p + 8])) <= |s|)
      && (r.Ok? ==> r.value.value.Some?
                    && |r.value.value.value.remainingData| != r.value.value.value.dataSize as int - 4)
      && (r.Err? ==> r.error == IOError)
    ensures ParseFactChunk(s, p) == Err(InvalidFactChunk)
  {
    FourCCOfCases(s[p..p + 4]);
  }

  /** The smallest witness: a 12-byte `fact` chunk declaring size 0. The
      source asks for 4294967292 payload bytes and reports an I/O error; the
      corrected decoder reports a malformed `fact` chunk. */
  lemma ZeroSizedFact()
    ensures var s: seq<byte> := FACT_TAG + [0, 0, 0, 0] + [0, 0, 0, 0];
      && WrappedRemainingSize(U32LE(s[4..8])) == 0xFFFF_FFFC
      && ParseFactChunkAsWritten(s, 0) == Err(IOError)
      && ParseFactChunk(s, 0) == Err(InvalidFactChunk)
  {
    var s: seq<byte> := FACT_TAG + [0, 0, 0, 0] + [0, 0, 0, 0];
    assert s[0..4] == FACT_TAG;
    assert s[4..8] == [0, 0, 0, 0];
    assert ShortFactAt(s, 0);
    ShortFactAsWritten(s, 0);
  }
}
