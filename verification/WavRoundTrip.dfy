/** Parsing undoes a plain serializer, for every supported sample format. */
module WavRoundTrip {
  import opened Basics
  import opened LittleEndian
  import opened Wav
  import opened WavChunks

  // ----- the format chunk

  ghost function FormatBytes(code: nat, f: Format): (bytes: seq<Byte>)
    ensures |bytes| == 16
  {
    ToLe(code, 2) + ToLe(f.channels, 2) + ToLe(f.rate, 4) + ToLe(f.rate * Alignment(f), 4)
    + ToLe(Alignment(f), 2) + ToLe(f.bits, 2)
  }

  /** The six fields of a format header. */
  ghost predicate HasFields(p: seq<Byte>, code: nat, f: Format)
    requires |p| >= 16
  {
    && Le(p[0..2]) == code && Le(p[2..4]) == f.channels && Le(p[4..8]) == f.rate
    && Le(p[8..12]) == f.rate * Alignment(f) && Le(p[12..14]) == Alignment(f) && Le(p[14..16]) == f.bits
  }

  lemma FieldsOfBytes(p: seq<Byte>, code: nat, f: Format)
    requires |p| >= 16 && p[..16] == FormatBytes(code, f)
    requires code < 0x1_0000 && Supported(f)
    ensures HasFields(p, code, f)
  {
    var q := p[..16];
    assert p[0..2] == q[0..2] == ToLe(code, 2);
    assert p[2..4] == q[2..4] == ToLe(f.channels, 2);
    assert p[4..8] == q[4..8] == ToLe(f.rate, 4);
    assert p[8..12] == q[8..12] == ToLe(f.rate * Alignment(f), 4);
    assert p[12..14] == q[12..14] == ToLe(Alignment(f), 2);
    assert p[14..16] == q[14..16] == ToLe(f.bits, 2);
    RateFits(f);
    LeOfToLe(code, 2);
    LeOfToLe(f.channels, 2);
    LeOfToLe(f.rate, 4);
    LeOfToLe(f.rate * Alignment(f), 4);
    LeOfToLe(Alignment(f), 2);
    LeOfToLe(f.bits, 2);
  }

  lemma RateFits(f: Format)
    requires Supported(f)
    ensures f.rate <= f.rate * Alignment(f)
  {
  }

  lemma BytesOfFields(p: seq<Byte>, code: nat, f: Format)
    requires |p| >= 16 && HasFields(p, code, f)
    ensures p[..16] == FormatBytes(code, f)
  {
    ToLeOfLe(p[0..2]);
    ToLeOfLe(p[2..4]);
    ToLeOfLe(p[4..8]);
    ToLeOfLe(p[8..12]);
    ToLeOfLe(p[12..14]);
    ToLeOfLe(p[14..16]);
    assert p[..16] == p[0..2] + p[2..4] + p[4..8] + p[8..12] + p[12..14] + p[14..16];
  }

  /** The extension of an extensible header that stands for the format. */
  ghost predicate Extends(p: seq<Byte>, f: Format) {
    && |p| >= 40
    && 22 <= Le(p[16..18]) <= |p| - 18
    && 0 < Le(p[18..20]) <= f.bits
    && (f.code == 3 ==> Le(p[18..20]) == f.bits)
    && Le(p[24..28]) == f.code
    && p[28..40] == GUID_TAIL
  }

  lemma CheckRateExactly(g: Format, alignment: nat, byteRate: nat, f: Format)
    requires g.channels == 1 || g.channels == 2
    requires byteRate <= 0xFFFF_FFFF
    ensures CheckRate(g, alignment, byteRate) == Ok(f) <==>
      g == f && Supported(f) && alignment == Alignment(f) && byteRate == f.rate * Alignment(f)
  {
  }

  /** A format payload is accepted exactly when it starts with the header of a supported
      format, directly or through an extension. */
  lemma FormatAcceptedExactly(p: seq<Byte>, f: Format)
    ensures ReadFormat(p) == Ok(f) <==>
      && Supported(f) && |p| >= 16
      && (p[..16] == FormatBytes(f.code, f) || (p[..16] == FormatBytes(0xFFFE, f) && Extends(p, f)))
  {
    if |p| >= 16 {
      ReadByFields(p, f);
      if Supported(f) {
        if p[..16] == FormatBytes(f.code, f) {
          FieldsOfBytes(p, f.code, f);
        }
        if p[..16] == FormatBytes(EXTENSIBLE, f) {
          FieldsOfBytes(p, EXTENSIBLE, f);
        }
        if HasFields(p, f.code, f) {
          BytesOfFields(p, f.code, f);
        }
        if HasFields(p, EXTENSIBLE, f) {
          BytesOfFields(p, EXTENSIBLE, f);
        }
      }
    }
  }

  lemma ReadByFields(p: seq<Byte>, f: Format)
    requires |p| >= 16
    ensures ReadFormat(p) == Ok(f) <==>
      Supported(f) && (HasFields(p, f.code, f) || (HasFields(p, EXTENSIBLE, f) && Extends(p, f)))
  {
    LeInRange(p[8..12]);
    var code, channels, bits := Le(p[0..2]), Le(p[2..4]), Le(p[14..16]);
    if channels == 1 || channels == 2 {
      CheckRateExactly(Format(code, channels, Le(p[4..8]), bits), Le(p[12..14]), Le(p[8..12]), f);
      if |p| >= 40 {
        CheckRateExactly(Format(Le(p[24..28]), channels, Le(p[4..8]), bits), Le(p[12..14]), Le(p[8..12]), f);
      }
    }
  }

  // ----- the sample data

  /** Raw samples one after the other. */
  ghost function Fields(words: seq<nat>, width: nat): seq<Byte> {
    if words == [] then [] else ToLe(words[0], width) + Fields(words[1..], width)
  }

  lemma {:induction false} FieldsAt(words: seq<nat>, width: nat, i: nat)
    requires i < |words|
    ensures |Fields(words, width)| == |words| * width
    ensures (i + 1) * width <= |words| * width
    ensures Field(Fields(words, width), i, width) == ToLe(words[i], width)
  {
    var rest := Fields(words[1..], width);
    ProductSuccessor(|words| - 1, width);
    ProductSuccessor(i, width);
    ProductMonotone(i + 1, |words|, width);
    if |words| == 1 {
      assert rest == [];
    } else if i == 0 {
      FieldsAt(words[1..], width, 0);
    } else {
      FieldsAt(words[1..], width, i - 1);
      ProductSuccessor(i - 1, width);
      AfterFirst(ToLe(words[0], width), rest, (i - 1) * width, i * width);
    }
  }

  lemma AfterFirst(first: seq<Byte>, rest: seq<Byte>, low: nat, high: nat)
    requires low <= high <= |rest|
    ensures (first + rest)[|first| + low..|first| + high] == rest[low..high]
  {
  }

  /** The weights in file order: frame by frame, channel by channel. */
  ghost function Interleaved(words: seq<nat>, channels: nat, taps: nat): (file: seq<nat>)
    requires channels == 1 || channels == 2
    requires |words| == channels * taps
    ensures |file| == |words|
    ensures forall i: nat :: i < |file| ==> Slot(channels, taps, i) < |words| && file[i] == words[Slot(channels, taps, i)]
  {
    forall i: nat | i < |words| ensures Slot(channels, taps, i) < |words| {
      SlotsAreAPermutation(channels, taps, i);
    }
    seq(|words|, i requires 0 <= i < |words| => words[Slot(channels, taps, i)])
  }

  ghost function Padding(size: nat): seq<Byte> { if size % 2 == 1 then [0] else [] }

  ghost function FormatChunk(f: Format): Chunk { Chunk(FMT, FormatBytes(f.code, f), []) }

  ghost function DataChunk(f: Format, words: seq<nat>, taps: nat): Chunk
    requires f.channels == 1 || f.channels == 2
    requires |words| == f.channels * taps
  {
    var payload := Fields(Interleaved(words, f.channels, taps), BytesPerSample(f));
    Chunk(DATA, payload, Padding(|payload|))
  }

  lemma DataSize(f: Format, words: seq<nat>, taps: nat)
    requires Supported(f) && |words| == f.channels * taps && taps > 0
    ensures |DataChunk(f, words, taps).payload| == f.channels * taps * BytesPerSample(f) == taps * Alignment(f)
  {
    FieldsAt(Interleaved(words, f.channels, taps), BytesPerSample(f), 0);
    TwoChannels(taps, BytesPerSample(f));
  }

  lemma TwoChannels(taps: nat, width: nat)
    ensures 2 * taps * width == taps * (2 * width)
  {
  }

  lemma DataRaw(f: Format, words: seq<nat>, taps: nat, i: nat)
    requires Supported(f) && |words| == f.channels * taps && i < |words|
    requires forall k :: 0 <= k < |words| ==> words[k] < Capacity(BytesPerSample(f))
    ensures var payload := DataChunk(f, words, taps).payload;
      && (i + 1) * BytesPerSample(f) <= |payload|
      && Slot(f.channels, taps, i) < |words|
      && Raw(f, payload, i) == words[Slot(f.channels, taps, i)]
  {
    var file := Interleaved(words, f.channels, taps);
    FieldsAt(file, BytesPerSample(f), i);
    SlotsAreAPermutation(f.channels, taps, i);
    LeOfToLe(file[i], BytesPerSample(f));
  }

  lemma DataWeights(f: Format, words: seq<nat>, taps: nat)
    requires Supported(f) && |words| == f.channels * taps && taps > 0
    requires forall k :: 0 <= k < |words| ==> words[k] < Capacity(BytesPerSample(f))
    requires f.code == IEEE_FLOAT ==> forall k :: 0 <= k < |words| ==> FiniteBits(words[k])
    requires |DataChunk(f, words, taps).payload| == f.channels * taps * BytesPerSample(f)
    ensures AllFinite(f, DataChunk(f, words, taps).payload, taps)
    ensures var w := Weights(f, DataChunk(f, words, taps).payload, taps);
      |w| == |words| && forall k :: 0 <= k < |w| ==> w[k] == Decode(f, words[k])
  {
    var payload := DataChunk(f, words, taps).payload;
    var w := Weights(f, payload, taps);
    forall i: nat | i < |words|
      ensures (i + 1) * BytesPerSample(f) <= |payload| && (f.code == IEEE_FLOAT ==> FiniteBits(Raw(f, payload, i)))
    {
      DataRaw(f, words, taps, i);
    }
    forall k: nat | k < |w| ensures w[k] == Decode(f, words[k]) {
      SlotsAreAPermutation(f.channels, taps, k);
      DataRaw(f, words, taps, Origin(f.channels, taps, k));
    }
  }

  /** What a sample word means: a float's bits, or two's complement as a fraction of full
      scale, `Capacity` being one past the largest word. */
  ghost function Interpreted(f: Format, word: nat): Sample {
    var full := Capacity(BytesPerSample(f));
    if f.code == 3 then FloatBits(word)
    else Scaled(2.0 * (if 2 * word < full then word else word - full) as real / full as real)
  }

  lemma DecodeExactly(f: Format, word: nat)
    requires Supported(f) && word < Capacity(BytesPerSample(f))
    ensures Decode(f, word) == Interpreted(f, word)
  {
  }

  /** Serializing weights and parsing the file gives the weights back, each channel whole
      and in order; floats must be finite. */
  lemma RoundTrip(f: Format, words: seq<nat>, taps: nat)
    requires Supported(f) && |words| == f.channels * taps && taps > 0
    requires forall k :: 0 <= k < |words| ==> words[k] < Capacity(BytesPerSample(f))
    requires f.code == IEEE_FLOAT ==> forall k :: 0 <= k < |words| ==> FiniteBits(words[k])
    requires Fits([FormatChunk(f), DataChunk(f, words, taps)])
    ensures Parsed(Riff([FormatChunk(f), DataChunk(f, words, taps)])) ==
      Ok(Ir(f.rate, f.channels, taps, seq(|words|, k requires 0 <= k < |words| => Interpreted(f, words[k]))))
  {
    var cs := [FormatChunk(f), DataChunk(f, words, taps)];
    FormatAcceptedExactly(FormatBytes(f.code, f), f);
    assert FormatBytes(f.code, f)[..16] == FormatBytes(f.code, f);
    DataPlayed(f, words, taps);
    var ir := Played(f, cs[1].payload);
    assert Means(cs, 0, 1, ir);
    AcceptedExactly(cs, ir);
    ParsedContainer(cs, []);
    assert Riff(cs) + [] == Riff(cs);
  }

  lemma DataPlayed(f: Format, words: seq<nat>, taps: nat)
    requires Supported(f) && |words| == f.channels * taps && taps > 0
    requires forall k :: 0 <= k < |words| ==> words[k] < Capacity(BytesPerSample(f))
    requires f.code == IEEE_FLOAT ==> forall k :: 0 <= k < |words| ==> FiniteBits(words[k])
    ensures Playable(f, DataChunk(f, words, taps).payload)
    ensures Played(f, DataChunk(f, words, taps).payload) ==
      Ir(f.rate, f.channels, taps, seq(|words|, k requires 0 <= k < |words| => Interpreted(f, words[k])))
  {
    var payload := DataChunk(f, words, taps).payload;
    DataSize(f, words, taps);
    QuotientExact(f, taps);
    DataWeights(f, words, taps);
    assert taps * Alignment(f) > 0;
    forall k | 0 <= k < |words| ensures Decode(f, words[k]) == Interpreted(f, words[k]) {
      DecodeExactly(f, words[k]);
    }
    assert Weights(f, payload, taps) == seq(|words|, k requires 0 <= k < |words| => Interpreted(f, words[k]));
  }

  lemma QuotientExact(f: Format, taps: nat)
    requires Supported(f)
    ensures taps * Alignment(f) % Alignment(f) == 0 && taps * Alignment(f) / Alignment(f) == taps
  {
    match Alignment(f)
    case 2 =>
    case 3 =>
    case 4 =>
    case 6 =>
    case _ =>
  }

  // ----- signed integers

  /** The signed integers that fit `width` bytes. */
  ghost predicate InRange(v: int, width: nat) { -(Capacity(width) as int) <= 2 * v < Capacity(width) }

  ghost function Unsigned(v: int, width: nat): nat
    requires InRange(v, width)
  {
    if v < 0 then v + Capacity(width) else v
  }

  ghost function Words(ints: seq<int>, width: nat): (words: seq<nat>)
    requires forall k :: 0 <= k < |ints| ==> InRange(ints[k], width)
    ensures |words| == |ints|
    ensures forall k :: 0 <= k < |ints| ==> words[k] == Unsigned(ints[k], width)
  {
    seq(|ints|, k requires 0 <= k < |ints| => Unsigned(ints[k], width))
  }

  lemma SignedOfUnsigned(f: Format, v: int)
    requires Supported(f) && f.code == 1 && InRange(v, BytesPerSample(f))
    ensures Unsigned(v, BytesPerSample(f)) < Capacity(BytesPerSample(f))
    ensures Interpreted(f, Unsigned(v, BytesPerSample(f))) == Scaled(2.0 * v as real / Capacity(BytesPerSample(f)) as real)
  {
  }

  /** For PCM of 16, 24 or 32 bits the parsed weight is the integer over half the range of
      its words, which is 2^16, 2^24 or 2^32. */
  lemma PcmRoundTrip(f: Format, ints: seq<int>, taps: nat)
    requires Supported(f) && f.code == 1 && |ints| == f.channels * taps && taps > 0
    requires forall k :: 0 <= k < |ints| ==> InRange(ints[k], BytesPerSample(f))
    requires Fits([FormatChunk(f), DataChunk(f, Words(ints, BytesPerSample(f)), taps)])
    ensures var r := Parsed(Riff([FormatChunk(f), DataChunk(f, Words(ints, BytesPerSample(f)), taps)]));
      && r.Ok? && r.value.rate == f.rate && r.value.channels == f.channels && r.value.taps == taps
      && |r.value.weights| == |ints|
      && forall k :: 0 <= k < |ints| ==>
           r.value.weights[k] == Scaled(2.0 * ints[k] as real / Capacity(BytesPerSample(f)) as real)
    ensures Capacity(BytesPerSample(f)) == if f.bits == 16 then 0x1_0000 else if f.bits == 24 then 0x100_0000 else 0x1_0000_0000
  {
    var words := Words(ints, BytesPerSample(f));
    forall k | 0 <= k < |ints|
      ensures words[k] < Capacity(BytesPerSample(f))
      ensures Interpreted(f, words[k]) == Scaled(2.0 * ints[k] as real / Capacity(BytesPerSample(f)) as real)
    {
      SignedOfUnsigned(f, ints[k]);
    }
    RoundTrip(f, words, taps);
  }
}
