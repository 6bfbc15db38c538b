/** The grammar behind the parser: a file is a RIFF header, a list of padded chunks and
    anything after the declared end. The parser reads the list and nothing else. */
module WavChunks {
  import opened Basics
  import opened LittleEndian
  import opened Wav

  /** A chunk with its padding byte, if its payload is odd. */
  datatype Chunk = Chunk(id: seq<Byte>, payload: seq<Byte>, pad: seq<Byte>)

  ghost predicate IsChunk(c: Chunk) {
    |c.id| == 4 && |c.payload| <= 0xFFFF_FFFF && |c.pad| == |c.payload| % 2
  }

  ghost predicate AreChunks(cs: seq<Chunk>) {
    forall k :: 0 <= k < |cs| ==> IsChunk(cs[k])
  }

  ghost function ChunkBytes(c: Chunk): seq<Byte> {
    c.id + ToLe(|c.payload|, 4) + c.payload + c.pad
  }

  ghost function Body(cs: seq<Chunk>): seq<Byte> {
    if cs == [] then [] else ChunkBytes(cs[0]) + Body(cs[1..])
  }

  /** The container of these chunks. */
  ghost function Riff(cs: seq<Chunk>): seq<Byte> {
    RIFF + ToLe(4 + |Body(cs)|, 4) + WAVE + Body(cs)
  }

  ghost predicate Fits(cs: seq<Chunk>) {
    AreChunks(cs) && 4 + |Body(cs)| <= 0xFFFF_FFFF
  }

  /** What the chunks mean, taken in order. */
  ghost function Fold(cs: seq<Chunk>, found: Scan): Result<Scan, Error> {
    if cs == [] then Ok(found)
    else
      match Accept(found, cs[0].id, cs[0].payload)
      case Err(e) => Err(e)
      case Ok(next) => Fold(cs[1..], next)
  }

  lemma {:induction false} FoldStaysPlausible(cs: seq<Chunk>, found: Scan)
    requires AreChunks(cs) && Plausible(found)
    ensures Fold(cs, found).Ok? ==> Plausible(Fold(cs, found).value)
  {
    if cs != [] {
      AcceptStaysPlausible(found, cs[0].id, cs[0].payload);
      if Accept(found, cs[0].id, cs[0].payload).Ok? {
        FoldStaysPlausible(cs[1..], Accept(found, cs[0].id, cs[0].payload).value);
      }
    }
  }

  ghost function Meaning(cs: seq<Chunk>): Result<Ir, Error>
    requires AreChunks(cs)
  {
    FoldStaysPlausible(cs, Scan(None, None));
    match Fold(cs, Scan(None, None))
    case Err(e) => Err(e)
    case Ok(found) => Finish(found)
  }

  // ----- the walk over a serialized list is the fold over the list

  lemma ChunkFields(b: seq<Byte>, position: nat, c: Chunk)
    requires IsChunk(c)
    requires position + |ChunkBytes(c)| <= |b| && b[position..position + |ChunkBytes(c)|] == ChunkBytes(c)
    ensures |ChunkBytes(c)| == 8 + Padded(|c.payload|)
    ensures b[position..position + 4] == c.id
    ensures Le(b[position + 4..position + 8]) == |c.payload|
    ensures b[position + 8..position + 8 + |c.payload|] == c.payload
  {
    var n := |ChunkBytes(c)|;
    SliceOfSlice(b, position, n, 0, 4);
    SliceOfSlice(b, position, n, 4, 8);
    SliceOfSlice(b, position, n, 8, 8 + |c.payload|);
    assert ChunkBytes(c)[0..4] == c.id;
    assert ChunkBytes(c)[4..8] == ToLe(|c.payload|, 4);
    assert ChunkBytes(c)[8..8 + |c.payload|] == c.payload;
    LeOfToLe(|c.payload|, 4);
  }

  lemma {:induction false} ScanIsFold(b: seq<Byte>, position: nat, end: nat, cs: seq<Chunk>, found: Scan)
    requires position <= end <= |b| && b[position..end] == Body(cs) && AreChunks(cs)
    ensures ScanFrom(b, position, end, found) == Fold(cs, found)
    decreases |cs|
  {
    if cs != [] {
      var next := FrontTurn(b, position, end, cs, found);
      var r := Accept(found, cs[0].id, cs[0].payload);
      if r.Ok? {
        ScanIsFold(b, next, end, cs[1..], r.value);
      }
    }
  }

  lemma FrontTurn(b: seq<Byte>, position: nat, end: nat, cs: seq<Chunk>, found: Scan) returns (next: nat)
    requires position <= end <= |b| && b[position..end] == Body(cs) && AreChunks(cs) && cs != []
    ensures position < next <= end && b[next..end] == Body(cs[1..])
    ensures TurnAt(b, position, end, found) == Continue(Accept(found, cs[0].id, cs[0].payload), next)
  {
    next := position + |ChunkBytes(cs[0])|;
    SplitAt(b, position, end, ChunkBytes(cs[0]), Body(cs[1..]));
    TurnIsAccept(b, position, end, cs[0], found);
  }

  lemma TurnIsAccept(b: seq<Byte>, position: nat, end: nat, c: Chunk, found: Scan)
    requires IsChunk(c) && position + |ChunkBytes(c)| <= end <= |b|
    requires b[position..position + |ChunkBytes(c)|] == ChunkBytes(c)
    ensures position < end
    ensures TurnAt(b, position, end, found) == Continue(Accept(found, c.id, c.payload), position + |ChunkBytes(c)|)
  {
    ChunkFields(b, position, c);
  }

  lemma SplitAt(b: seq<Byte>, position: nat, end: nat, front: seq<Byte>, back: seq<Byte>)
    requires position <= end <= |b| && b[position..end] == front + back
    ensures position + |front| <= end
    ensures b[position..position + |front|] == front
    ensures b[position + |front|..end] == back
  {
    var whole := b[position..end];
    assert |whole| == |front| + |back|;
    assert whole[..|front|] == front && whole[|front|..] == back;
  }

  /** Parsing a container of any chunk list, whatever follows it, gives the meaning of the
      list, errors included. */
  lemma ParsedContainer(cs: seq<Chunk>, tail: seq<Byte>)
    requires Fits(cs)
    ensures Parsed(Riff(cs) + tail) == Meaning(cs)
  {
    var b := Riff(cs) + tail;
    var end := 12 + |Body(cs)|;
    FiveParts(RIFF, ToLe(4 + |Body(cs)|, 4), WAVE, Body(cs), tail);
    LeOfToLe(4 + |Body(cs)|, 4);
    ScanIsFold(b, 12, end, cs, Scan(None, None));
  }

  lemma FiveParts(x: seq<Byte>, y: seq<Byte>, z: seq<Byte>, body: seq<Byte>, tail: seq<Byte>)
    requires |x| == |y| == |z| == 4
    ensures var b := x + y + z + body + tail;
      b[0..4] == x && b[4..8] == y && b[8..12] == z && b[12..12 + |body|] == body
  {
  }

  // ----- every accepted file is such a container

  ghost function ChunkAt(b: seq<Byte>, position: nat): Chunk
    requires position + 8 <= |b|
    requires position + 8 + Padded(Le(b[position + 4..position + 8])) <= |b|
  {
    var body := position + 8;
    var size := Le(b[position + 4..position + 8]);
    Chunk(b[position..position + 4], b[body..body + size], b[body + size..body + Padded(size)])
  }

  lemma ChunkAtBytes(b: seq<Byte>, position: nat)
    requires position + 8 <= |b|
    requires position + 8 + Padded(Le(b[position + 4..position + 8])) <= |b|
    ensures IsChunk(ChunkAt(b, position))
    ensures ChunkBytes(ChunkAt(b, position)) == b[position..position + 8 + Padded(Le(b[position + 4..position + 8]))]
  {
    var body, size := position + 8, Le(b[position + 4..position + 8]);
    LeInRange(b[position + 4..position + 8]);
    ToLeOfLe(b[position + 4..position + 8]);
    JoinFour(b, position, position + 4, body, body + size, body + Padded(size));
  }

  lemma JoinFour<T>(b: seq<T>, p: nat, q: nat, r: nat, s: nat, t: nat)
    requires p <= q <= r <= s <= t <= |b|
    ensures b[p..q] + b[q..r] + b[r..s] + b[s..t] == b[p..t]
  {
  }

  /** A successful turn passed a well-formed chunk. */
  lemma FirstChunk(b: seq<Byte>, position: nat, end: nat, found: Scan) returns (c: Chunk)
    requires position < end <= |b| && TurnAt(b, position, end, found).Ok?
    ensures IsChunk(c) && ChunkBytes(c) == b[position..TurnAt(b, position, end, found).value.position]
    ensures Accept(found, c.id, c.payload) == Ok(TurnAt(b, position, end, found).value.found)
  {
    ChunkAtBytes(b, position);
    c := ChunkAt(b, position);
  }

  lemma BodyCons(c: Chunk, cs: seq<Chunk>)
    requires IsChunk(c) && AreChunks(cs)
    ensures AreChunks([c] + cs) && Body([c] + cs) == ChunkBytes(c) + Body(cs)
  {
    assert ([c] + cs)[1..] == cs;
  }

  lemma {:induction false} ScannedChunks(b: seq<Byte>, position: nat, end: nat, found: Scan) returns (cs: seq<Chunk>)
    requires position <= end <= |b|
    requires ScanFrom(b, position, end, found).Ok?
    ensures AreChunks(cs) && Body(cs) == b[position..end]
    decreases end - position
  {
    if position == end {
      cs := [];
    } else {
      var c := FirstChunk(b, position, end, found);
      var turn := TurnAt(b, position, end, found).value;
      var more := ScannedChunks(b, turn.position, end, turn.found);
      BodyCons(c, more);
      cs := [c] + more;
      assert b[position..turn.position] + b[turn.position..end] == b[position..end];
    }
  }

  /** A file is accepted exactly when it is the container of a meaningful chunk list,
      followed by anything; the result is what the list means. */
  lemma AcceptedFile(b: seq<Byte>) returns (cs: seq<Chunk>, tail: seq<Byte>)
    requires Parsed(b).Ok?
    ensures Fits(cs) && b == Riff(cs) + tail && Parsed(b) == Meaning(cs)
  {
    var end := Le(b[4..8]) + 8;
    cs := ScannedChunks(b, 12, end, Scan(None, None));
    tail := b[end..];
    ContainerOf(b, end, cs);
    ParsedContainer(cs, tail);
  }

  lemma ContainerOf(b: seq<Byte>, end: nat, cs: seq<Chunk>)
    requires 12 <= end <= |b| && b[0..4] == RIFF && b[8..12] == WAVE && end == Le(b[4..8]) + 8
    requires AreChunks(cs) && Body(cs) == b[12..end]
    ensures Fits(cs) && b == Riff(cs) + b[end..]
  {
    LeInRange(b[4..8]);
    ToLeOfLe(b[4..8]);
    assert |Body(cs)| == end - 12;
    FourParts(b, RIFF, ToLe(4 + |Body(cs)|, 4), WAVE);
    assert b == b[..12] + b[12..end] + b[end..];
  }

  lemma FourParts(b: seq<Byte>, x: seq<Byte>, y: seq<Byte>, z: seq<Byte>)
    requires |b| >= 12 && b[0..4] == x && b[4..8] == y && b[8..12] == z
    ensures b[..12] == x + y + z
  {
    assert b[..12] == b[0..4] + b[4..8] + b[8..12];
  }

  // ----- and every rejection of the walk has its cause

  /** There is no whole chunk header at `stop`, or no room for the declared chunk, or its
      contents are refused after what was found before. */
  ghost predicate Refused(b: seq<Byte>, stop: nat, end: nat, found: Scan, e: Error)
    requires stop < end <= |b|
  {
    if end - stop < 8 then e == IncompleteChunkHeader(stop)
    else
      var size := Le(b[stop + 4..stop + 8]);
      if stop + 8 + size + size % 2 > end
      then e == ChunkExceedsBounds(b[stop..stop + 4], size + size % 2, end - stop - 8)
      else Accept(found, b[stop..stop + 4], b[stop + 8..stop + 8 + size]) == Err(e)
  }

  lemma TurnRefused(b: seq<Byte>, position: nat, end: nat, found: Scan)
    requires position < end <= |b| && TurnAt(b, position, end, found).Err?
    ensures Refused(b, position, end, found, TurnAt(b, position, end, found).error)
  {
  }

  /** The walk read the chunks before `stop` and stopped there. */
  ghost predicate StopsAt(b: seq<Byte>, position: nat, end: nat, found: Scan, e: Error, cs: seq<Chunk>, stop: nat)
    requires position <= end <= |b|
  {
    && position <= stop < end && AreChunks(cs) && Body(cs) == b[position..stop]
    && Fold(cs, found).Ok? && Refused(b, stop, end, Fold(cs, found).value, e)
  }

  lemma {:induction false} WalkStops(b: seq<Byte>, position: nat, end: nat, found: Scan) returns (cs: seq<Chunk>, stop: nat)
    requires position <= end <= |b| && ScanFrom(b, position, end, found).Err?
    ensures StopsAt(b, position, end, found, ScanFrom(b, position, end, found).error, cs, stop)
    decreases end - position
  {
    var r := TurnAt(b, position, end, found);
    if r.Err? {
      cs, stop := [], position;
      TurnRefused(b, position, end, found);
    } else {
      var c := FirstChunk(b, position, end, found);
      var more: seq<Chunk>;
      more, stop := WalkStops(b, r.value.position, end, r.value.found);
      cs := [c] + more;
      StopsLater(b, position, r.value.position, end, found, r.value.found, ScanFrom(b, position, end, found).error, c, more, stop);
    }
  }

  lemma StopsLater(b: seq<Byte>, position: nat, next: nat, end: nat, found: Scan, found': Scan, e: Error,
                   c: Chunk, more: seq<Chunk>, stop: nat)
    requires position <= next <= end <= |b| && StopsAt(b, next, end, found', e, more, stop)
    requires IsChunk(c) && ChunkBytes(c) == b[position..next] && Accept(found, c.id, c.payload) == Ok(found')
    ensures StopsAt(b, position, end, found, e, [c] + more, stop)
  {
    BodyCons(c, more);
    FoldCons(c, more, found);
    assert b[position..next] + b[next..stop] == b[position..stop];
  }

  lemma FoldCons(c: Chunk, cs: seq<Chunk>, found: Scan)
    requires Accept(found, c.id, c.payload).Ok?
    ensures Fold([c] + cs, found) == Fold(cs, Accept(found, c.id, c.payload).value)
  {
    assert ([c] + cs)[1..] == cs;
  }

  // ----- chunks the parser does not know

  lemma {:induction false} FoldSkips(before: seq<Chunk>, c: Chunk, after: seq<Chunk>, found: Scan)
    requires c.id != FMT && c.id != DATA
    ensures Fold(before + [c] + after, found) == Fold(before + after, found)
    decreases |before|
  {
    if before == [] {
      assert (before + [c] + after)[1..] == after == before + after;
    } else {
      assert (before + [c] + after)[1..] == before[1..] + [c] + after;
      assert (before + after)[1..] == before[1..] + after;
      match Accept(found, before[0].id, before[0].payload) {
        case Err(_) =>
        case Ok(next) => FoldSkips(before[1..], c, after, next);
      }
    }
  }

  /** An unknown chunk, inserted anywhere with the declared size adjusted, and other bytes
      after the end, change nothing. */
  lemma UnknownChunkIsIgnored(before: seq<Chunk>, c: Chunk, after: seq<Chunk>, tail: seq<Byte>, tail': seq<Byte>)
    requires Fits(before + after) && Fits(before + [c] + after)
    requires c.id != FMT && c.id != DATA
    ensures Parsed(Riff(before + [c] + after) + tail') == Parsed(Riff(before + after) + tail)
  {
    FoldSkips(before, c, after, Scan(None, None));
    ParsedContainer(before + [c] + after, tail');
    ParsedContainer(before + after, tail);
  }

  // ----- which lists are meaningful

  ghost predicate Known(c: Chunk) { c.id == FMT || c.id == DATA }

  /** Exactly one format chunk and, after it, exactly one data chunk. */
  ghost predicate OneOfEach(cs: seq<Chunk>, i: nat, j: nat) {
    && i < j < |cs| && cs[i].id == FMT && cs[j].id == DATA
    && forall k :: 0 <= k < |cs| && k != i && k != j ==> !Known(cs[k])
  }

  lemma {:induction false} FoldUnknown(cs: seq<Chunk>, found: Scan)
    requires forall k :: 0 <= k < |cs| ==> !Known(cs[k])
    ensures Fold(cs, found) == Ok(found)
  {
    if cs != [] {
      FoldUnknown(cs[1..], found);
    }
  }

  lemma {:induction false} FoldConcat(front: seq<Chunk>, back: seq<Chunk>, found: Scan)
    ensures Fold(front + back, found) ==
      match Fold(front, found) case Err(e) => Err(e) case Ok(next) => Fold(back, next)
    decreases |front|
  {
    if front == [] {
      assert front + back == back;
    } else {
      assert (front + back)[1..] == front[1..] + back;
      match Accept(found, front[0].id, front[0].payload) {
        case Err(_) =>
        case Ok(next) => FoldConcat(front[1..], back, next);
      }
    }
  }

  lemma FoldOne(c: Chunk, found: Scan)
    ensures Fold([c], found) == Accept(found, c.id, c.payload)
  {
    assert [c][1..] == [];
  }

  /** One format and one data chunk mean what their payloads mean. */
  lemma MeaningOfPair(cs: seq<Chunk>, i: nat, j: nat)
    requires OneOfEach(cs, i, j)
    ensures Fold(cs, Scan(None, None)) ==
      match ReadFormat(cs[i].payload) case Err(e) => Err(e) case Ok(f) => Ok(Scan(Some(f), Some(cs[j].payload)))
  {
    var found := Scan(None, None);
    assert cs == cs[..i] + ([cs[i]] + (cs[i + 1..j] + ([cs[j]] + cs[j + 1..])));
    FoldUnknown(cs[..i], found);
    FoldConcat(cs[..i], [cs[i]] + (cs[i + 1..j] + ([cs[j]] + cs[j + 1..])), found);
    FoldConcat([cs[i]], cs[i + 1..j] + ([cs[j]] + cs[j + 1..]), found);
    FoldOne(cs[i], found);
    if ReadFormat(cs[i].payload).Ok? {
      var next := Scan(Some(ReadFormat(cs[i].payload).value), None);
      FoldConcat(cs[i + 1..j], [cs[j]] + cs[j + 1..], next);
      FoldUnknown(cs[i + 1..j], next);
      FoldConcat([cs[j]], cs[j + 1..], next);
      FoldOne(cs[j], next);
      FoldUnknown(cs[j + 1..], next.(data := Some(cs[j].payload)));
    }
  }

  /** With a format, the rest holds at most the one data chunk still missing. */
  lemma {:induction false} FoldAfterFormat(cs: seq<Chunk>, found: Scan)
    requires found.format.Some? && found.data.None?
    requires Fold(cs, found).Ok? && Fold(cs, found).value.data.Some?
    ensures exists j :: 0 <= j < |cs| && cs[j].id == DATA && OnlyAt(cs, j)
  {
    if !Known(cs[0]) {
      FoldAfterFormat(cs[1..], found);
      var j :| 0 <= j < |cs[1..]| && cs[1..][j].id == DATA && OnlyAt(cs[1..], j);
      assert cs[j + 1].id == DATA && OnlyAt(cs, j + 1);
    } else {
      FoldAfterBoth(cs[1..], found.(data := Some(cs[0].payload)));
      assert cs[0].id == DATA && OnlyAt(cs, 0);
    }
  }

  ghost predicate OnlyAt(cs: seq<Chunk>, j: nat) {
    forall k :: 0 <= k < |cs| && k != j ==> !Known(cs[k])
  }

  lemma {:induction false} FoldAfterBoth(cs: seq<Chunk>, found: Scan)
    requires found.format.Some? && found.data.Some? && Fold(cs, found).Ok?
    ensures forall k :: 0 <= k < |cs| ==> !Known(cs[k])
  {
    if cs != [] {
      FoldAfterBoth(cs[1..], found);
    }
  }

  lemma {:induction false} FoldFromNothing(cs: seq<Chunk>)
    requires Fold(cs, Scan(None, None)).Ok? && Fold(cs, Scan(None, None)).value.data.Some?
    ensures exists i: nat, j: nat :: OneOfEach(cs, i, j)
  {
    if !Known(cs[0]) {
      FoldFromNothing(cs[1..]);
      var i: nat, j: nat :| OneOfEach(cs[1..], i, j);
      assert OneOfEach(cs, i + 1, j + 1);
    } else {
      FoldAfterFormat(cs[1..], Scan(Some(ReadFormat(cs[0].payload).value), None));
      var j :| 0 <= j < |cs[1..]| && cs[1..][j].id == DATA && OnlyAt(cs[1..], j);
      assert OneOfEach(cs, 0, j + 1);
    }
  }

  ghost predicate Playable(f: Format, payload: seq<Byte>) {
    && Supported(f)
    && |payload| > 0 && |payload| % Alignment(f) == 0
    && (WholeFrames(f, |payload|); AllFinite(f, payload, |payload| / Alignment(f)))
  }

  ghost function Played(f: Format, payload: seq<Byte>): Ir
    requires Playable(f, payload)
  {
    WholeFrames(f, |payload|);
    Ir(f.rate, f.channels, |payload| / Alignment(f), Weights(f, payload, |payload| / Alignment(f)))
  }

  /** One format chunk, valid, and after it one data chunk holding a positive, whole number
      of frames of finite samples, decoded and de-interleaved. */
  ghost predicate Means(cs: seq<Chunk>, i: nat, j: nat, ir: Ir) {
    && OneOfEach(cs, i, j)
    && ReadFormat(cs[i].payload).Ok?
    && Playable(ReadFormat(cs[i].payload).value, cs[j].payload)
    && ir == Played(ReadFormat(cs[i].payload).value, cs[j].payload)
  }

  lemma FinishIsPlayed(f: Format, payload: seq<Byte>, ir: Ir)
    requires Supported(f) && |payload| <= 0xFFFF_FFFF
    ensures Finish(Scan(Some(f), Some(payload))) == Ok(ir) <==> Playable(f, payload) && ir == Played(f, payload)
  {
  }

  lemma MeansPair(cs: seq<Chunk>, i: nat, j: nat, ir: Ir)
    requires AreChunks(cs) && OneOfEach(cs, i, j)
    ensures Meaning(cs) == Ok(ir) <==> Means(cs, i, j, ir)
  {
    MeaningOfPair(cs, i, j);
    if ReadFormat(cs[i].payload).Ok? {
      ReadFormatIsSupported(cs[i].payload);
      FinishIsPlayed(ReadFormat(cs[i].payload).value, cs[j].payload, ir);
    }
  }

  /** The whole condition for a chunk list to be accepted, with its result. */
  lemma AcceptedExactly(cs: seq<Chunk>, ir: Ir)
    requires AreChunks(cs)
    ensures Meaning(cs) == Ok(ir) <==> exists i: nat, j: nat :: Means(cs, i, j, ir)
  {
    if Meaning(cs) == Ok(ir) {
      FoldFromNothing(cs);
      var i: nat, j: nat :| OneOfEach(cs, i, j);
      MeansPair(cs, i, j, ir);
    }
    if i: nat, j: nat :| Means(cs, i, j, ir) {
      MeansPair(cs, i, j, ir);
    }
  }
}
