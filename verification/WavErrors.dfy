/** What each rejection of the parser says about the file, in the file's own bytes. */
module WavErrors {
  import opened Basics
  import opened LittleEndian
  import opened Wav
  import opened WavChunks

  /** The format code in force: an extensible header names another one. */
  ghost function CodeOf(p: seq<Byte>): nat
    requires |p| >= 16
  {
    if Le(p[0..2]) == 0xFFFE && |p| >= 40 then Le(p[24..28]) else Le(p[0..2])
  }

  /** A format payload has the fault the error names. */
  ghost predicate FormatFault(p: seq<Byte>, e: Error) {
    if |p| < 16 then e == InvalidOrDuplicateFmt
    else
      var channels, bits, extensible := Le(p[2..4]), Le(p[14..16]), Le(p[0..2]) == 0xFFFE;
      match e
      case UnsupportedChannelCount(n) => n == channels && n != 1 && n != 2
      case InvalidExtensibleFormat => extensible && (|p| < 40 || Le(p[16..18]) < 22 || Le(p[16..18]) + 18 > |p|)
      case InvalidValidBits(v, b) => extensible && |p| >= 40 && v == Le(p[18..20]) && b == bits && (v == 0 || v > b)
      case UnsupportedExtensibleSubtype => extensible && |p| >= 40 && p[28..40] != GUID_TAIL
      case InvalidFloatValidBits(v, b) =>
        extensible && |p| >= 40 && v == Le(p[18..20]) && b == bits && CodeOf(p) == 3 && v != b
      case UnsupportedFormat(c, b) =>
        c == CodeOf(p) && b == bits && !(c == 1 && b in {16, 24, 32}) && !(c == 3 && b == 32)
      case InvalidRateOrAlignment(rate, alignment, byteRate) =>
        && rate == Le(p[4..8]) && alignment == Le(p[12..14]) && byteRate == Le(p[8..12])
        && (rate == 0 || alignment != channels * (bits / 8) || byteRate != rate * (channels * (bits / 8)))
      case _ => false
  }

  lemma FormatFaults(p: seq<Byte>)
    requires ReadFormat(p).Err?
    ensures FormatFault(p, ReadFormat(p).error)
  {
  }

  /** A chunk has the fault the error names, after what was found before it. */
  ghost predicate ChunkFault(found: Scan, id: seq<Byte>, payload: seq<Byte>, e: Error) {
    if id == Ascii("fmt ") then
      if found.format.Some? then e == InvalidOrDuplicateFmt else FormatFault(payload, e)
    else
      id == Ascii("data") && (found.format == None || found.data.Some?) && e == MissingFmtOrDuplicateData
  }

  lemma ChunkFaults(found: Scan, id: seq<Byte>, payload: seq<Byte>)
    requires Accept(found, id, payload).Err?
    ensures ChunkFault(found, id, payload, Accept(found, id, payload).error)
  {
    Identifiers();
    if id == FMT && found.format == None {
      FormatFaults(payload);
    }
  }

  /** What was found in all has the fault the error names: no data, no whole frames, or a
      float word that is infinite or no number. */
  ghost predicate DataFault(found: Scan, e: Error)
    requires Plausible(found)
  {
    match e
    case InvalidDataSize(size, alignment) =>
      && size == (if found.data.Some? then |found.data.value| else 0)
      && alignment == (if found.format.Some? then found.format.value.channels * (found.format.value.bits / 8) else 0)
      && (size == 0 || (alignment > 0 && size % alignment != 0))
    case NonFiniteSample =>
      && found.data.Some? && found.format.value.code == 3
      && exists i: nat :: IsWord(found.data.value, i) && IsInfinite(found.data.value, i)
    case _ => false
  }

  ghost predicate IsWord(payload: seq<Byte>, i: nat) {
    (i + 1) * 4 <= |payload|
  }

  /** The i-th 32-bit word has all exponent bits set. */
  ghost predicate IsInfinite(payload: seq<Byte>, i: nat)
    requires IsWord(payload, i)
  {
    var word := Le(Field(payload, i, 4));
    0x7F80_0000 <= word <= 0x7FFF_FFFF || 0xFF80_0000 <= word
  }

  lemma DataFaults(found: Scan)
    requires Plausible(found) && Finish(found).Err?
    ensures DataFault(found, Finish(found).error)
  {
    if Finish(found).error == NonFiniteSample {
      var f, payload := found.format.value, found.data.value;
      WholeFrames(f, |payload|);
      var i := InfiniteWord(f, payload, |payload| / Alignment(f));
      assert IsWord(payload, i) && IsInfinite(payload, i);
    }
  }

  lemma InfiniteWord(f: Format, payload: seq<Byte>, taps: nat) returns (i: nat)
    requires Supported(f) && |payload| == f.channels * taps * BytesPerSample(f) && !AllFinite(f, payload, taps)
    ensures f.code == 3 && IsWord(payload, i) && IsInfinite(payload, i)
  {
    i :| i < f.channels * taps && (i + 1) * BytesPerSample(f) <= |payload| && !FiniteBits(Raw(f, payload, i));
    LeInRange(Field(payload, i, 4));
    FiniteBitsExactly(Raw(f, payload, i));
  }

  /** The header has the fault the error names. */
  ghost predicate HeaderFault(b: seq<Byte>, e: Error) {
    if |b| < 12 then e == MissingHeader
    else if b[0..4] != Ascii("RIFF") || b[8..12] != Ascii("WAVE") then e == ExpectedRiffWave
    else var end := Le(b[4..8]) + 8; (end < 12 || end > |b|) && e == InvalidRiffSize(end)
  }

  /** Every rejected file is rejected for a fault of its header, of the first chunk that
      cannot be read or has contents at fault, or of what its chunks hold in all. */
  lemma RejectedFile(b: seq<Byte>) returns (cs: seq<Chunk>, stop: nat)
    requires Parsed(b).Err?
    ensures var e, none := Parsed(b).error, Scan(None, None);
      || HeaderFault(b, e)
      || (&& |b| >= 12 && 12 <= Le(b[4..8]) + 8 <= |b|
          && var end := Le(b[4..8]) + 8;
             if stop < end then StopsAt(b, 12, end, none, e, cs, stop)
             else && stop == end && AreChunks(cs) && Body(cs) == b[12..end] && Fold(cs, none).Ok?
                  && Plausible(Fold(cs, none).value) && DataFault(Fold(cs, none).value, e))
  {
    Identifiers();
    cs, stop := [], 0;
    if !HeaderFault(b, Parsed(b).error) {
      var end, none := Le(b[4..8]) + 8, Scan(None, None);
      if ScanFrom(b, 12, end, none).Err? {
        cs, stop := WalkStops(b, 12, end, none);
      } else {
        cs := ScannedChunks(b, 12, end, none);
        stop := end;
        ScanIsFold(b, 12, end, cs, none);
        ScanStaysPlausible(b, 12, end, none);
        DataFaults(Fold(cs, none).value);
      }
    }
  }
}
