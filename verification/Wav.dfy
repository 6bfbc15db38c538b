/** The impulse response parser: a walk over the chunks of a RIFF/WAVE file, then decoding
    of the interleaved samples into one block of weights per channel. */
module Wav {
  import opened Basics
  import opened LittleEndian

  datatype Error =
    | MissingHeader
    | ExpectedRiffWave
    | InvalidRiffSize(end: nat)
    | IncompleteChunkHeader(position: nat)
    | ChunkExceedsBounds(id: seq<Byte>, paddedSize: nat, remaining: nat)
    | InvalidOrDuplicateFmt
    | UnsupportedChannelCount(channels: nat)
    | InvalidExtensibleFormat
    | InvalidValidBits(validBits: nat, bits: nat)
    | UnsupportedExtensibleSubtype
    | InvalidFloatValidBits(validBits: nat, bits: nat)
    | UnsupportedFormat(format: nat, bits: nat)
    | InvalidRateOrAlignment(rate: nat, alignment: nat, byteRate: nat)
    | MissingFmtOrDuplicateData
    | InvalidDataSize(dataSize: nat, alignment: nat)
    | NonFiniteSample

  const RIFF: seq<Byte> := [0x52, 0x49, 0x46, 0x46]
  const WAVE: seq<Byte> := [0x57, 0x41, 0x56, 0x45]
  const FMT: seq<Byte> := [0x66, 0x6D, 0x74, 0x20]
  const DATA: seq<Byte> := [0x64, 0x61, 0x74, 0x61]
  const GUID_TAIL: seq<Byte> := [0, 0, 0x10, 0, 0x80, 0, 0, 0xAA, 0, 0x38, 0x9B, 0x71]

  const PCM: nat := 1
  const IEEE_FLOAT: nat := 3
  const EXTENSIBLE: nat := 65534

  function Ascii(text: string): (bytes: seq<int>)
    ensures |bytes| == |text| && forall k :: 0 <= k < |text| ==> bytes[k] == text[k] as int
  {
    seq(|text|, k requires 0 <= k < |text| => text[k] as int)
  }

  /** The identifiers as text, and the tail of the subformat identifiers
      {0000000x-0000-0010-8000-00AA00389B71} in their mixed byte order. */
  lemma Identifiers()
    ensures RIFF == Ascii("RIFF") && WAVE == Ascii("WAVE") && FMT == Ascii("fmt ") && DATA == Ascii("data")
    ensures GUID_TAIL == ToLe(0x0000, 2) + ToLe(0x0010, 2) + [0x80, 0x00] + [0x00, 0xAA, 0x00, 0x38, 0x9B, 0x71]
  {
  }

  // ----- the format chunk

  datatype Format = Format(code: nat, channels: nat, rate: nat, bits: nat)

  function BytesPerSample(f: Format): nat { f.bits / 8 }

  function Alignment(f: Format): nat { if f.channels == 1 then BytesPerSample(f) else 2 * BytesPerSample(f) }

  predicate Supported(f: Format) {
    && (f.channels == 1 || f.channels == 2)
    && ((f.code == 1 && (f.bits == 16 || f.bits == 24 || f.bits == 32)) || (f.code == 3 && f.bits == 32))
    && 0 < f.rate
    && f.rate * Alignment(f) <= 0xFFFF_FFFF
  }

  /** The subformat of an extensible header: its format code, once the extension is valid. */
  function ReadExtension(payload: seq<Byte>, bits: nat): Result<nat, Error> {
    if |payload| < 40 then Err(InvalidExtensibleFormat)
    else
      var extra := Le(payload[16..18]);
      var validBits := Le(payload[18..20]);
      var code := Le(payload[24..28]);
      if extra < 22 || extra + 18 > |payload| then Err(InvalidExtensibleFormat)
      else if validBits == 0 || validBits > bits then Err(InvalidValidBits(validBits, bits))
      else if payload[28..40] != GUID_TAIL then Err(UnsupportedExtensibleSubtype)
      else if code == IEEE_FLOAT && validBits != bits then Err(InvalidFloatValidBits(validBits, bits))
      else Ok(code)
  }

  function CheckRate(f: Format, alignment: nat, byteRate: nat): Result<Format, Error> {
    if !(f.code == PCM && (f.bits == 16 || f.bits == 24 || f.bits == 32)) && !(f.code == IEEE_FLOAT && f.bits == 32) then
      Err(UnsupportedFormat(f.code, f.bits))
    else if f.rate == 0 || alignment != f.channels * (f.bits / 8) || byteRate != f.rate * (f.channels * (f.bits / 8)) then
      Err(InvalidRateOrAlignment(f.rate, alignment, byteRate))
    else
      Ok(f)
  }

  function ReadFormat(payload: seq<Byte>): Result<Format, Error> {
    if |payload| < 16 then Err(InvalidOrDuplicateFmt)
    else
      var code := Le(payload[0..2]);
      var channels := Le(payload[2..4]);
      var rate := Le(payload[4..8]);
      var byteRate := Le(payload[8..12]);
      var alignment := Le(payload[12..14]);
      var bits := Le(payload[14..16]);
      if channels != 1 && channels != 2 then Err(UnsupportedChannelCount(channels))
      else if code == EXTENSIBLE then
        match ReadExtension(payload, bits)
        case Err(e) => Err(e)
        case Ok(sub) => CheckRate(Format(sub, channels, rate, bits), alignment, byteRate)
      else CheckRate(Format(code, channels, rate, bits), alignment, byteRate)
  }

  // ----- what the walk has found so far

  datatype Scan = Scan(format: Option<Format>, data: Option<seq<Byte>>)

  /** What one chunk contributes. */
  function Accept(found: Scan, id: seq<Byte>, payload: seq<Byte>): Result<Scan, Error> {
    if id == FMT then
      if found.format.Some? then Err(InvalidOrDuplicateFmt)
      else
        match ReadFormat(payload)
        case Err(e) => Err(e)
        case Ok(f) => Ok(found.(format := Some(f)))
    else if id == DATA then
      if found.format.None? || found.data.Some? then Err(MissingFmtOrDuplicateData)
      else Ok(found.(data := Some(payload)))
    else
      Ok(found)
  }

  function Padded(size: nat): nat { size + size % 2 }

  datatype Turn = Turn(found: Scan, position: nat)

  /** One turn of the walk: the chunk at `position`. */
  ghost function TurnAt(b: seq<Byte>, position: nat, end: nat, found: Scan): (r: Result<Turn, Error>)
    requires position < end <= |b|
    ensures r.Ok? ==> position < r.value.position <= end
  {
    if end - position < 8 then Err(IncompleteChunkHeader(position))
    else
      var id := b[position..position + 4];
      var size := Le(b[position + 4..position + 8]);
      var body := position + 8;
      if Padded(size) > end - body then Err(ChunkExceedsBounds(id, Padded(size), end - body))
      else Continue(Accept(found, id, b[body..body + size]), body + Padded(size))
  }

  function Continue(accepted: Result<Scan, Error>, position: nat): Result<Turn, Error> {
    match accepted
    case Err(e) => Err(e)
    case Ok(found) => Ok(Turn(found, position))
  }

  ghost function ScanFrom(b: seq<Byte>, position: nat, end: nat, found: Scan): Result<Scan, Error>
    requires position <= end <= |b|
    decreases end - position
  {
    if position == end then Ok(found)
    else
      match TurnAt(b, position, end, found)
      case Err(e) => Err(e)
      case Ok(t) => ScanFrom(b, t.position, end, t.found)
  }

  // ----- samples

  /** A float keeps its bits; an integer is scaled by the half range of its width. */
  datatype Sample = FloatBits(raw: nat) | Scaled(value: real)

  datatype Ir = Ir(rate: nat, channels: nat, taps: nat, weights: seq<Sample>)

  /** Neither infinite nor a NaN: the eight exponent bits are not all ones. */
  predicate FiniteBits(raw: nat) { raw / 0x80_0000 % 256 != 255 }

  /** The two stretches of bit patterns that are infinities and NaNs. */
  lemma FiniteBitsExactly(raw: nat)
    requires raw <= 0xFFFF_FFFF
    ensures FiniteBits(raw) <==> !(0x7F80_0000 <= raw <= 0x7FFF_FFFF) && !(0xFF80_0000 <= raw <= 0xFFFF_FFFF)
  {
    var exponent := raw / 0x80_0000;
    assert exponent < 512;
    assert exponent % 256 == if exponent < 256 then exponent else exponent - 256;
  }

  function HalfRange(bits: nat): nat {
    match bits
    case 16 => 0x8000
    case 24 => 0x80_0000
    case _ => 0x8000_0000
  }

  /** Two's complement. */
  function Signed(raw: nat, bits: nat): int {
    if raw >= HalfRange(bits) then raw - 2 * HalfRange(bits) else raw
  }

  function Decode(f: Format, raw: nat): Sample {
    if f.code == IEEE_FLOAT then FloatBits(raw) else Scaled(Signed(raw, f.bits) as real / HalfRange(f.bits) as real)
  }

  /** The i-th of the fields of `width` bytes that a payload is cut into. */
  function Field(payload: seq<Byte>, i: nat, width: nat): (field: seq<Byte>)
    requires (i + 1) * width <= |payload|
    ensures |field| == width
  {
    ProductSuccessor(i, width);
    payload[i * width..i * width + width]
  }

  /** The raw bits of the i-th sample, counting through the frames. */
  function Raw(f: Format, payload: seq<Byte>, i: nat): nat
    requires (i + 1) * BytesPerSample(f) <= |payload|
  {
    Le(Field(payload, i, BytesPerSample(f)))
  }

  /** Where the i-th sample of the file goes, and which sample lands at a given weight. */
  function Slot(channels: nat, taps: nat, i: nat): nat {
    if channels == 1 then i else i % 2 * taps + i / 2
  }

  function Origin(channels: nat, taps: nat, k: nat): nat {
    if channels == 1 then k else if k < taps then 2 * k else 2 * (k - taps) + 1
  }

  /** The de-interleaving moves every sample to its own slot, and fills every slot. */
  lemma SlotsAreAPermutation(channels: nat, taps: nat, i: nat)
    requires channels == 1 || channels == 2
    requires i < channels * taps
    ensures Slot(channels, taps, i) < channels * taps
    ensures Origin(channels, taps, Slot(channels, taps, i)) == i
    ensures Origin(channels, taps, i) < channels * taps
    ensures Slot(channels, taps, Origin(channels, taps, i)) == i
  {
  }

  /** Channel `ch` of frame `frame`. */
  lemma SlotOfFrame(channels: nat, taps: nat, frame: nat, ch: nat)
    requires (channels == 1 || channels == 2) && ch < channels && frame < taps
    ensures Slot(channels, taps, frame * channels + ch) == ch * taps + frame
  {
  }

  ghost function Weights(f: Format, payload: seq<Byte>, taps: nat): (w: seq<Sample>)
    requires f.channels == 1 || f.channels == 2
    requires |payload| == f.channels * taps * BytesPerSample(f)
    ensures |w| == f.channels * taps
    ensures forall k: nat :: k < |w| ==>
      && (Origin(f.channels, taps, k) + 1) * BytesPerSample(f) <= |payload|
      && w[k] == Decode(f, Raw(f, payload, Origin(f.channels, taps, k)))
  {
    forall k: nat | k < f.channels * taps
      ensures (Origin(f.channels, taps, k) + 1) * BytesPerSample(f) <= |payload|
    {
      SlotsAreAPermutation(f.channels, taps, k);
      ProductMonotone(Origin(f.channels, taps, k) + 1, f.channels * taps, BytesPerSample(f));
    }
    seq(f.channels * taps, k requires 0 <= k < f.channels * taps => Decode(f, Raw(f, payload, Origin(f.channels, taps, k))))
  }

  ghost predicate AllFinite(f: Format, payload: seq<Byte>, taps: nat)
    requires |payload| == f.channels * taps * BytesPerSample(f)
  {
    f.code == IEEE_FLOAT ==>
      forall i: nat :: i < f.channels * taps && (i + 1) * BytesPerSample(f) <= |payload| ==> FiniteBits(Raw(f, payload, i))
  }

  // ----- the whole result

  lemma ReadFormatIsSupported(payload: seq<Byte>)
    requires ReadFormat(payload).Ok?
    ensures Supported(ReadFormat(payload).value)
  {
    LeInRange(payload[8..12]);
  }

  ghost predicate Plausible(found: Scan) {
    && (found.data.Some? ==> found.format.Some?)
    && (found.format.Some? ==> Supported(found.format.value))
    && (found.data.Some? ==> |found.data.value| <= 0xFFFF_FFFF)
  }

  lemma AcceptStaysPlausible(found: Scan, id: seq<Byte>, payload: seq<Byte>)
    requires Plausible(found) && |payload| <= 0xFFFF_FFFF
    ensures Accept(found, id, payload).Ok? ==> Plausible(Accept(found, id, payload).value)
  {
    if id == FMT && ReadFormat(payload).Ok? {
      ReadFormatIsSupported(payload);
    }
  }

  lemma {:induction false} ScanStaysPlausible(b: seq<Byte>, position: nat, end: nat, found: Scan)
    requires position <= end <= |b| && Plausible(found)
    ensures ScanFrom(b, position, end, found).Ok? ==> Plausible(ScanFrom(b, position, end, found).value)
    decreases end - position
  {
    if position < end {
      TurnStaysPlausible(b, position, end, found);
      var r := TurnAt(b, position, end, found);
      if r.Ok? {
        ScanStaysPlausible(b, r.value.position, end, r.value.found);
      }
    }
  }

  lemma TurnStaysPlausible(b: seq<Byte>, position: nat, end: nat, found: Scan)
    requires position < end <= |b| && Plausible(found)
    ensures TurnAt(b, position, end, found).Ok? ==> Plausible(TurnAt(b, position, end, found).value.found)
  {
    if end - position >= 8 {
      var size := Le(b[position + 4..position + 8]);
      LeInRange(b[position + 4..position + 8]);
      if Padded(size) <= end - (position + 8) {
        AcceptStaysPlausible(found, b[position..position + 4], b[position + 8..position + 8 + size]);
      }
    }
  }

  function FoundAlignment(found: Scan): nat {
    if found.format.Some? then Alignment(found.format.value) else 0
  }

  lemma WholeFrames(f: Format, size: nat)
    requires Supported(f) && size % Alignment(f) == 0
    ensures size == f.channels * (size / Alignment(f)) * BytesPerSample(f)
  {
    var taps := size / Alignment(f);
    assert size == taps * Alignment(f);
    assert taps * (2 * BytesPerSample(f)) == 2 * taps * BytesPerSample(f);
  }

  lemma TapsFit(f: Format, size: nat)
    requires Supported(f) && size <= 0xFFFF_FFFF
    ensures size / Alignment(f) <= 0x7FFF_FFFF
  {
  }

  ghost function Finish(found: Scan): Result<Ir, Error>
    requires Plausible(found)
  {
    if found.data.None? then Err(InvalidDataSize(0, FoundAlignment(found)))
    else
      var f, payload := found.format.value, found.data.value;
      if |payload| == 0 || |payload| % Alignment(f) != 0 then Err(InvalidDataSize(|payload|, Alignment(f)))
      else
        var taps := |payload| / Alignment(f);
        WholeFrames(f, |payload|);
        if !AllFinite(f, payload, taps) then Err(NonFiniteSample)
        else Ok(Ir(f.rate, f.channels, taps, Weights(f, payload, taps)))
  }

  ghost function Parsed(b: seq<Byte>): Result<Ir, Error> {
    if |b| < 12 then Err(MissingHeader)
    else if b[0..4] != RIFF || b[8..12] != WAVE then Err(ExpectedRiffWave)
    else
      var end := Le(b[4..8]) + 8;
      if end < 12 || end > |b| then Err(InvalidRiffSize(end))
      else
        ScanStaysPlausible(b, 12, end, Scan(None, None));
        match ScanFrom(b, 12, end, Scan(None, None))
        case Err(e) => Err(e)
        case Ok(found) => Finish(found)
  }

  // ----- the parser

  datatype Span = Span(position: nat, size: nat)
  datatype Layout = Layout(format: Option<Format>, data: Option<Span>)

  ghost predicate InBounds(b: seq<Byte>, layout: Layout) {
    layout.data.Some? ==> layout.data.value.position + layout.data.value.size <= |b|
  }

  ghost function View(b: seq<Byte>, layout: Layout): Scan
    requires InBounds(b, layout)
  {
    Scan(
      layout.format,
      if layout.data.None? then None
      else Some(b[layout.data.value.position..layout.data.value.position + layout.data.value.size]))
  }

  /** The chunk walk. Every read is inside the container. */
  method ScanChunks(b: seq<Byte>, end: nat) returns (r: Result<Layout, Error>)
    requires 12 <= end <= |b|
    ensures r.Err? ==> ScanFrom(b, 12, end, Scan(None, None)) == Err(r.error)
    ensures r.Ok? ==>
      && InBounds(b, r.value)
      && ScanFrom(b, 12, end, Scan(None, None)) == Ok(View(b, r.value))
  {
    var position := 12;
    var layout := Layout(None, None);
    while position < end
      invariant position <= end
      invariant InBounds(b, layout)
      invariant ScanFrom(b, 12, end, Scan(None, None)) == ScanFrom(b, position, end, View(b, layout))
      decreases end - position
    {
      var r' := NextChunk(b, end, position, layout);
      if r'.Err? {
        return Err(r'.error);
      }
      layout, position := r'.value.layout, r'.value.position;
    }
    r := Ok(layout);
  }

  datatype Progress = Progress(layout: Layout, position: nat)

  /** One turn of the walk. */
  method NextChunk(b: seq<Byte>, end: nat, position: nat, layout: Layout) returns (r: Result<Progress, Error>)
    requires position < end <= |b|
    requires InBounds(b, layout)
    ensures r.Err? ==> TurnAt(b, position, end, View(b, layout)) == Err(r.error)
    ensures r.Ok? ==>
      && position < r.value.position <= end
      && InBounds(b, r.value.layout)
      && TurnAt(b, position, end, View(b, layout)) == Ok(Turn(View(b, r.value.layout), r.value.position))
  {
    if end - position < 8 {
      return Err(IncompleteChunkHeader(position));
    }
    var id := b[position..position + 4];
    var sizeField := b[position + 4..position + 8];
    var size := UintLe(sizeField);
    assert sizeField[..4] == sizeField;
    var padded := size + size % 2;
    var body := position + 8;
    if padded > end - body {
      return Err(ChunkExceedsBounds(id, padded, end - body));
    }
    var next := AcceptChunk(b, layout, id, body, size);
    if next.Err? {
      return Err(next.error);
    }
    r := Ok(Progress(next.value, body + padded));
  }

  method AcceptChunk(b: seq<Byte>, layout: Layout, id: seq<Byte>, body: nat, size: nat) returns (r: Result<Layout, Error>)
    requires InBounds(b, layout) && body + size <= |b|
    ensures r.Err? ==> Accept(View(b, layout), id, b[body..body + size]) == Err(r.error)
    ensures r.Ok? ==>
      && InBounds(b, r.value)
      && Accept(View(b, layout), id, b[body..body + size]) == Ok(View(b, r.value))
  {
    if id == FMT {
      if layout.format.Some? || size < 16 {
        return Err(InvalidOrDuplicateFmt);
      }
      var read := ReadFormat(b[body..body + size]);
      if read.Err? {
        return Err(read.error);
      }
      r := Ok(layout.(format := Some(read.value)));
    } else if id == DATA {
      if layout.format.None? || layout.data.Some? {
        return Err(MissingFmtOrDuplicateData);
      }
      r := Ok(layout.(data := Some(Span(body, size))));
    } else {
      r := Ok(layout);
    }
  }

  lemma SliceOfSlice<T>(s: seq<T>, start: nat, len: nat, lo: nat, hi: nat)
    requires start + len <= |s| && lo <= hi <= len
    ensures s[start..start + len][lo..hi] == s[start + lo..start + hi]
  {
    var whole := s[start..start + len];
    forall k | 0 <= k < hi - lo ensures whole[lo..hi][k] == s[start + lo..start + hi][k] {
      assert whole[lo..hi][k] == whole[lo + k] == s[start + (lo + k)];
    }
  }

  /** The bytes of the i-th field, in the file and in the payload. */
  lemma FieldInFile(b: seq<Byte>, position: nat, payload: seq<Byte>, i: nat, width: nat)
    requires position + |payload| <= |b| && payload == b[position..position + |payload|]
    requires (i + 1) * width <= |payload|
    ensures position + i * width + width <= |b|
    ensures b[position + i * width..position + i * width + width] == Field(payload, i, width)
  {
    ProductSuccessor(i, width);
    SliceOfSlice(b, position, |payload|, i * width, i * width + width);
  }

  /** Decodes the i-th sample of a payload. */
  method DecodeSample(b: seq<Byte>, f: Format, position: nat, i: nat, ghost payload: seq<Byte>) returns (r: Result<Sample, Error>)
    requires Supported(f)
    requires position + |payload| <= |b| && payload == b[position..position + |payload|]
    requires (i + 1) * BytesPerSample(f) <= |payload|
    ensures var raw := Raw(f, payload, i);
      r == if f.code == IEEE_FLOAT && !FiniteBits(raw) then Err(NonFiniteSample) else Ok(Decode(f, raw))
  {
    var width := f.bits / 8;
    var offset := position + i * width;
    FieldInFile(b, position, payload, i, width);
    var field := b[offset..offset + width];
    var raw := UintLe(field);
    assert field[..width] == field;
    if f.code == IEEE_FLOAT && !FiniteBits(raw) {
      return Err(NonFiniteSample);
    }
    r := Ok(Decode(f, raw));
  }

  /** Decodes every sample into its slot; stops at the first float that is not finite. */
  method DecodeSamples(b: seq<Byte>, f: Format, position: nat, taps: nat) returns (r: Result<seq<Sample>, Error>)
    requires Supported(f)
    requires position + f.channels * taps * BytesPerSample(f) <= |b|
    ensures var payload := b[position..position + f.channels * taps * BytesPerSample(f)];
      r == if AllFinite(f, payload, taps) then Ok(Weights(f, payload, taps)) else Err(NonFiniteSample)
  {
    var total, width := f.channels * taps, f.bits / 8;
    ghost var payload := b[position..position + total * width];
    var samples := new Sample[total](_ => Scaled(0.0));
    for i := 0 to total
      invariant forall j: nat :: j < i ==> Stored(f, payload, taps, samples[..], j)
    {
      ProductMonotone(i + 1, total, width);
      SlotsAreAPermutation(f.channels, taps, i);
      var sample := DecodeSample(b, f, position, i, payload);
      if sample.Err? {
        return Err(NonFiniteSample);
      }
      ghost var before := samples[..];
      samples[i % f.channels * taps + i / f.channels] := sample.value;
      StoredStep(f, payload, taps, before, samples[..], i);
    }
    AllStored(f, payload, taps, samples[..]);
    r := Ok(samples[..]);
  }

  /** The j-th sample of the file is finite and stands in its slot. */
  ghost predicate Stored(f: Format, payload: seq<Byte>, taps: nat, samples: seq<Sample>, j: nat)
    requires f.channels == 1 || f.channels == 2
    requires |samples| == f.channels * taps && j < |samples|
    requires |payload| == |samples| * BytesPerSample(f)
  {
    SlotsAreAPermutation(f.channels, taps, j);
    ProductMonotone(j + 1, |samples|, BytesPerSample(f));
    && samples[Slot(f.channels, taps, j)] == Decode(f, Raw(f, payload, j))
    && (f.code == IEEE_FLOAT ==> FiniteBits(Raw(f, payload, j)))
  }

  lemma StoredStep(f: Format, payload: seq<Byte>, taps: nat, before: seq<Sample>, after: seq<Sample>, i: nat)
    requires f.channels == 1 || f.channels == 2
    requires |before| == |after| == f.channels * taps && i < |before|
    requires |payload| == |before| * BytesPerSample(f)
    requires forall j: nat :: j < i ==> Stored(f, payload, taps, before, j)
    requires Slot(f.channels, taps, i) < |before|
    requires (i + 1) * BytesPerSample(f) <= |payload|
    requires after == before[Slot(f.channels, taps, i) := Decode(f, Raw(f, payload, i))]
    requires f.code == IEEE_FLOAT ==> FiniteBits(Raw(f, payload, i))
    ensures forall j: nat :: j <= i ==> Stored(f, payload, taps, after, j)
  {
    forall j: nat | j <= i ensures Stored(f, payload, taps, after, j) {
      SlotsAreAPermutation(f.channels, taps, j);
      SlotsAreAPermutation(f.channels, taps, i);
      if j < i {
        assert Stored(f, payload, taps, before, j);
      }
    }
  }

  lemma AllStored(f: Format, payload: seq<Byte>, taps: nat, samples: seq<Sample>)
    requires f.channels == 1 || f.channels == 2
    requires |samples| == f.channels * taps
    requires |payload| == |samples| * BytesPerSample(f)
    requires forall j: nat :: j < |samples| ==> Stored(f, payload, taps, samples, j)
    ensures AllFinite(f, payload, taps)
    ensures samples == Weights(f, payload, taps)
  {
    forall i: nat | i < |samples| ensures (i + 1) * BytesPerSample(f) <= |payload| && (f.code == IEEE_FLOAT ==> FiniteBits(Raw(f, payload, i))) {
      ProductMonotone(i + 1, |samples|, BytesPerSample(f));
      assert Stored(f, payload, taps, samples, i);
    }
    var w := Weights(f, payload, taps);
    forall k: nat | k < |samples| ensures samples[k] == w[k] {
      SlotsAreAPermutation(f.channels, taps, k);
      assert Stored(f, payload, taps, samples, Origin(f.channels, taps, k));
    }
  }

  /** Parses a file. The limits on the tap count and on the payload's end hold after the
      walk; they are proved instead of checked. */
  method ParseWavIr(b: seq<Byte>) returns (r: Result<Ir, Error>)
    ensures r == Parsed(b)
  {
    if |b| < 12 {
      return Err(MissingHeader);
    }
    if b[0..4] != RIFF || b[8..12] != WAVE {
      return Err(ExpectedRiffWave);
    }
    var sizeField := b[4..8];
    var riffSize := UintLe(sizeField);
    assert sizeField[..4] == sizeField;
    var end := riffSize + 8;
    if end < 12 || end > |b| {
      return Err(InvalidRiffSize(end));
    }
    var scanned := ScanChunks(b, end);
    if scanned.Err? {
      return Err(scanned.error);
    }
    ScanStaysPlausible(b, 12, end, Scan(None, None));
    r := DecodeLayout(b, scanned.value);
  }

  method DecodeLayout(b: seq<Byte>, layout: Layout) returns (r: Result<Ir, Error>)
    requires InBounds(b, layout) && Plausible(View(b, layout))
    ensures r == Finish(View(b, layout))
  {
    if layout.data.None? {
      return Err(InvalidDataSize(0, if layout.format.Some? then Alignment(layout.format.value) else 0));
    }
    var f, position, size := layout.format.value, layout.data.value.position, layout.data.value.size;
    var alignment := Alignment(f);
    if size == 0 || size % alignment != 0 {
      return Err(InvalidDataSize(size, alignment));
    }
    var count := size / alignment;
    TapsFit(f, size);
    assert count <= 0x7FFF_FFFF && position + count * f.channels * BytesPerSample(f) <= |b|;
    WholeFrames(f, size);
    var decoded := DecodeSamples(b, f, position, count);
    if decoded.Err? {
      return Err(NonFiniteSample);
    }
    r := Ok(Ir(f.rate, f.channels, count, decoded.value));
  }
}
