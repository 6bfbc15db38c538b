/** Staging between planar host buffers and an interleaved processor: chunked
    through two fixed scratch buffers, safe when input planes are output planes. */
module PlaneAdapter {
  import opened Basics

  const STAGE_SAMPLES: nat := 1024

  // ----- interleaving

  /** Planar channels that all cover `n` frames. */
  ghost predicate Cover(planes: seq<seq<real>>, n: nat) {
    forall c :: 0 <= c < |planes| ==> n <= |planes[c]|
  }

  ghost function Frame(planes: seq<seq<real>>, i: nat): (f: seq<real>)
    requires Cover(planes, i + 1)
    ensures |f| == |planes|
  {
    seq(|planes|, (c: int) requires 0 <= c < |planes| => planes[c][i])
  }

  /** Frames `from..until` of planar channels, one sample per channel per frame. */
  ghost function Interleave(planes: seq<seq<real>>, from: nat, until: nat): (s: seq<real>)
    requires from <= until && Cover(planes, until)
    decreases until
  {
    if from == until then [] else Interleave(planes, from, until - 1) + Frame(planes, until - 1)
  }

  lemma {:induction false} InterleaveLength(planes: seq<seq<real>>, from: nat, until: nat)
    requires from <= until && Cover(planes, until)
    ensures |Interleave(planes, from, until)| == (until - from) * |planes|
    decreases until
  {
    if from < until {
      InterleaveLength(planes, from, until - 1);
      ProductSuccessor(until - from - 1, |planes|);
    }
  }

  lemma {:induction false} InterleaveJoin(planes: seq<seq<real>>, a: nat, b: nat, c: nat)
    requires a <= b <= c && Cover(planes, c)
    ensures Interleave(planes, a, c) == Interleave(planes, a, b) + Interleave(planes, b, c)
    decreases c
  {
    if b < c {
      InterleaveJoin(planes, a, b, c - 1);
    }
  }

  /** Interleaving reads only the frames it is asked for. */
  lemma {:induction false} InterleaveAgrees(p: seq<seq<real>>, q: seq<seq<real>>, from: nat, until: nat)
    requires from <= until && |p| == |q| && Cover(p, until) && Cover(q, until)
    requires forall c, i :: 0 <= c < |p| && from <= i < until ==> p[c][i] == q[c][i]
    ensures Interleave(p, from, until) == Interleave(q, from, until)
    decreases until
  {
    if from < until {
      InterleaveAgrees(p, q, from, until - 1);
      assert Frame(p, until - 1) == Frame(q, until - 1);
    }
  }

  /** Sample `i * channels + c` of the interleaved stream is frame `i` of channel `c`. */
  lemma {:induction false} InterleavedAt(planes: seq<seq<real>>, n: nat, i: nat, c: nat)
    requires Cover(planes, n) && i < n && c < |planes|
    ensures i * |planes| + c < |Interleave(planes, 0, n)|
    ensures Interleave(planes, 0, n)[i * |planes| + c] == planes[c][i]
    decreases n
  {
    InterleaveLength(planes, 0, n - 1);
    InterleaveLength(planes, 0, n);
    ProductSuccessor(n - 1, |planes|);
    if i < n - 1 {
      InterleavedAt(planes, n - 1, i, c);
    } else {
      assert (Interleave(planes, 0, n - 1) + Frame(planes, n - 1))[i * |planes| + c] == Frame(planes, n - 1)[c];
    }
  }

  // ----- processors

  /** A frame-by-frame processor: its output does not depend on how its input is cut
      into whole-frame chunks. */
  ghost predicate SplitIndependent<S(!new)>(f: (S, seq<real>) -> (S, seq<real>), inCh: nat, outCh: nat) {
    && (forall s :: IdlesAt(f, s))
    && (forall s, a, m: nat, b, n: nat :: SplitsAt(f, inCh, outCh, s, a, m, b, n))
  }

  /** No input: no output, and no change. */
  ghost predicate IdlesAt<S(!new)>(f: (S, seq<real>) -> (S, seq<real>), s: S) {
    f(s, []) == (s, [])
  }

  /** Whole frames in, as many out, and two chunks of `m` and `n` frames do what one does. */
  ghost predicate SplitsAt<S(!new)>(f: (S, seq<real>) -> (S, seq<real>), inCh: nat, outCh: nat,
                                    s: S, a: seq<real>, m: nat, b: seq<real>, n: nat) {
    Chunk(a, inCh, m) && Chunk(b, inCh, n) ==>
      && |f(s, a).1| == m * outCh
      && f(s, a + b) == (f(f(s, a).0, b).0, f(s, a).1 + f(f(s, a).0, b).1)
  }

  /** `a` holds `n` whole frames of `ch` channels. */
  ghost predicate Chunk(a: seq<real>, ch: nat, n: nat) {
    |a| == n * ch
  }

  // ----- the staged loop

  ghost function Planes(arrays: seq<array<real>>, ch: nat): (p: seq<seq<real>>)
    requires ch <= |arrays|
    reads arrays
    ensures |p| == ch && forall c :: 0 <= c < ch ==> p[c] == arrays[c][..]
  {
    seq(ch, (c: int) requires 0 <= c < ch reads arrays => arrays[c][..])
  }

  ghost predicate Long(arrays: seq<array<real>>, ch: nat, frames: nat) {
    ch <= |arrays| && forall c :: 0 <= c < ch ==> frames <= arrays[c].Length
  }

  ghost predicate Distinct(arrays: seq<array<real>>, ch: nat) {
    ch <= |arrays| && forall c, d :: 0 <= c < d < ch ==> arrays[c] != arrays[d]
  }

  /** Geometries the staged loop accepts; anything else is ignored. */
  predicate Representable(inputs: seq<array<real>>, outputs: seq<array<real>>, frames: nat, inCh: nat, outCh: nat) {
    && frames > 0 && 0 < inCh <= STAGE_SAMPLES && 0 < outCh <= STAGE_SAMPLES
    && inCh <= |inputs| && outCh <= |outputs|
  }

  /** Non-empty work with one to 1024 channels each way, all of them supplied. */
  lemma RepresentableExactly(inputs: seq<array<real>>, outputs: seq<array<real>>, frames: nat, inCh: nat, outCh: nat)
    ensures Representable(inputs, outputs, frames, inCh, outCh) <==>
      frames > 0 && 1 <= inCh <= 1024 && 1 <= outCh <= 1024 && inCh <= |inputs| && outCh <= |outputs|
  {
  }

  /** Copies `n` frames of the input planes, interleaved, into the scratch buffer. */
  method Gather(inputs: seq<array<real>>, inCh: nat, done: nat, n: nat, inBuf: array<real>)
    requires Long(inputs, inCh, done + n) && inBuf !in inputs
    requires inBuf.Length == STAGE_SAMPLES && n * inCh <= STAGE_SAMPLES
    modifies inBuf
    ensures Cover(Planes(inputs, inCh), done + n)
    ensures inBuf[..n * inCh] == Interleave(Planes(inputs, inCh), done, done + n)
  {
    ghost var planes := Planes(inputs, inCh);
    for i := 0 to n
      invariant i * inCh <= n * inCh
      invariant inBuf[..i * inCh] == Interleave(planes, done, done + i)
    {
      ProductSuccessor(i, inCh);
      ProductMonotone(i + 1, n, inCh);
      for c := 0 to inCh
        invariant inBuf[..i * inCh + c] == Interleave(planes, done, done + i) + Frame(planes, done + i)[..c]
      {
        ghost var before := inBuf[..i * inCh + c];
        inBuf[i * inCh + c] := inputs[c][done + i];
        assert inBuf[..i * inCh + c + 1] == before + [planes[c][done + i]];
      }
      assert Frame(planes, done + i)[..inCh] == Frame(planes, done + i);
      assert i * inCh + inCh == (i + 1) * inCh;
    }
  }

  /** Position of channel `c` of frame `i` in an interleaved buffer. */
  function Cell(i: nat, ch: nat, c: nat): nat { i * ch + c }

  lemma CellInRange(i: nat, ch: nat, c: nat, n: nat)
    requires i < n && c < ch
    ensures Cell(i, ch, c) < n * ch
  {
    ProductMonotone(i + 1, n, ch);
    ProductSuccessor(i, ch);
  }

  /** The `n` samples of channel `c` in an interleaved stream. */
  ghost function Channel(outs: seq<real>, ch: nat, c: nat, n: nat): (s: seq<real>)
    requires Chunk(outs, ch, n) && c < ch
    ensures |s| == n
    ensures forall i :: 0 <= i < n ==> Cell(i, ch, c) < |outs| && s[i] == outs[Cell(i, ch, c)]
  {
    assert forall i :: 0 <= i < n ==> Cell(i, ch, c) < |outs| by {
      forall i | 0 <= i < n ensures Cell(i, ch, c) < |outs| { CellInRange(i, ch, c, n); }
    }
    seq(n, (i: int) requires 0 <= i < n => outs[Cell(i, ch, c)])
  }

  lemma ChannelJoin(a: seq<real>, b: seq<real>, ch: nat, c: nat, m: nat, n: nat)
    requires Chunk(a, ch, m) && Chunk(b, ch, n) && c < ch
    ensures Chunk(a + b, ch, m + n)
    ensures Channel(a + b, ch, c, m + n) == Channel(a, ch, c, m) + Channel(b, ch, c, n)
  {
    assert (m + n) * ch == m * ch + n * ch;
    var whole, parts := Channel(a + b, ch, c, m + n), Channel(a, ch, c, m) + Channel(b, ch, c, n);
    forall i | 0 <= i < m + n ensures whole[i] == parts[i] {
      if i < m {
        CellInRange(i, ch, c, m);
      } else {
        CellInRange(i - m, ch, c, n);
        CellShift(i, m, ch, c);
      }
    }
  }

  lemma CellShift(i: nat, m: nat, ch: nat, c: nat)
    requires m <= i
    ensures Cell(i, ch, c) == m * ch + Cell(i - m, ch, c)
  {
    assert i * ch == m * ch + (i - m) * ch;
  }

  /** `plane` with `xs` written over it from index `at` on. */
  ghost function Placed(plane: seq<real>, at: nat, xs: seq<real>): (s: seq<real>)
    requires at + |xs| <= |plane|
    ensures |s| == |plane|
  {
    plane[..at] + xs + plane[at + |xs|..]
  }

  lemma PlacedTwice(plane: seq<real>, xs: seq<real>, ys: seq<real>)
    requires |xs| + |ys| <= |plane|
    ensures Placed(Placed(plane, 0, xs), |xs|, ys) == Placed(plane, 0, xs + ys)
  {
  }

  /** Deinterleaves one channel into its plane. */
  method ScatterChannel(dst: array<real>, done: nat, n: nat, outs: seq<real>, ch: nat, c: nat)
    requires done + n <= dst.Length && Chunk(outs, ch, n) && c < ch
    modifies dst
    ensures dst[..] == Placed(old(dst[..]), done, Channel(outs, ch, c, n))
  {
    for i := 0 to n
      invariant dst[..done] == old(dst[..done])
      invariant forall k :: 0 <= k < i ==> dst[done + k] == Channel(outs, ch, c, n)[k]
      invariant forall k :: done + i <= k < dst.Length ==> dst[k] == old(dst[k])
    {
      CellInRange(i, ch, c, n);
      dst[done + i] := outs[i * ch + c];
    }
    assert dst[done..done + n] == Channel(outs, ch, c, n);
    assert dst[..] == dst[..done] + dst[done..done + n] + dst[done + n..];
  }

  /** Deinterleaves `n` frames into the output planes, from frame `done` on. */
  method Scatter(outputs: seq<array<real>>, outCh: nat, done: nat, n: nat, outs: seq<real>)
    requires Long(outputs, outCh, done + n) && Distinct(outputs, outCh) && Chunk(outs, outCh, n)
    modifies outputs[..outCh]
    ensures forall c :: 0 <= c < outCh ==> outputs[c][..] == Placed(old(outputs[c][..]), done, Channel(outs, outCh, c, n))
  {
    for c := 0 to outCh
      invariant forall d :: 0 <= d < c ==> outputs[d][..] == Placed(old(outputs[d][..]), done, Channel(outs, outCh, d, n))
      invariant forall d :: c <= d < outCh ==> outputs[d][..] == old(outputs[d][..])
    {
      assert outputs[c] in outputs[..outCh];
      ScatterChannel(outputs[c], done, n, outs, outCh, c);
    }
  }

  /** What the output planes must hold after `done` frames. */
  ghost predicate Written(now: seq<seq<real>>, original: seq<seq<real>>, outs: seq<real>, done: nat) {
    && |now| == |original| && Chunk(outs, |original|, done)
    && forall c :: 0 <= c < |original| ==>
         done <= |original[c]| && now[c] == Placed(original[c], 0, Channel(outs, |original|, c, done))
  }

  lemma WrittenStep(before: seq<seq<real>>, now: seq<seq<real>>, original: seq<seq<real>>, outs: seq<real>, done: nat,
                    more: seq<real>, n: nat)
    requires Written(before, original, outs, done) && |now| == |original| && Chunk(more, |original|, n)
    requires Cover(before, done + n)
    requires forall c :: 0 <= c < |original| ==> now[c] == Placed(before[c], done, Channel(more, |original|, c, n))
    ensures Written(now, original, outs + more, done + n)
  {
    assert (done + n) * |original| == done * |original| + n * |original|;
    forall c | 0 <= c < |original|
      ensures done + n <= |original[c]| && now[c] == Placed(original[c], 0, Channel(outs + more, |original|, c, done + n))
    {
      assert done + n <= |before[c]|;
      ChannelJoin(outs, more, |original|, c, done, n);
      PlacedTwice(original[c], Channel(outs, |original|, c, done), Channel(more, |original|, c, n));
    }
  }

  /** `s` and `outs` are where one unchunked run over the first `done` frames gets. */
  ghost predicate RanTo<S(!new)>(f: (S, seq<real>) -> (S, seq<real>), s0: S, planes: seq<seq<real>>, done: nat, s: S, outs: seq<real>)
    requires Cover(planes, done)
  {
    f(s0, Interleave(planes, 0, done)) == (s, outs)
  }

  lemma RanNowhere<S(!new)>(f: (S, seq<real>) -> (S, seq<real>), s0: S, planes: seq<seq<real>>, outCh: nat)
    requires SplitIndependent(f, |planes|, outCh) && Cover(planes, 0)
    ensures RanTo(f, s0, planes, 0, s0, [])
  {
    assert IdlesAt(f, s0);
  }

  /** Running `f` on the next chunk continues the unchunked run. */
  lemma RunStep<S(!new)>(f: (S, seq<real>) -> (S, seq<real>), s0: S, s: S, outs: seq<real>, planes: seq<seq<real>>,
                         outCh: nat, done: nat, n: nat)
    requires SplitIndependent(f, |planes|, outCh) && Cover(planes, done + n)
    requires RanTo(f, s0, planes, done, s, outs)
    ensures var r := f(s, Interleave(planes, done, done + n));
            RanTo(f, s0, planes, done + n, r.0, outs + r.1) && Chunk(r.1, outCh, n)
  {
    var a, b := Interleave(planes, 0, done), Interleave(planes, done, done + n);
    InterleaveLength(planes, 0, done);
    InterleaveLength(planes, done, done + n);
    InterleaveJoin(planes, 0, done, done + n);
    assert Chunk(a, |planes|, done) && Chunk(b, |planes|, n);
    assert SplitsAt(f, |planes|, outCh, s0, a, done, b, n);
    assert SplitsAt(f, |planes|, outCh, s, b, n, [], 0);
  }

  /** Chunks are sized so that both interleaved scratch buffers hold them. */
  lemma ChunkFits(n: nat, ch: nat, maxCh: nat)
    requires ch <= maxCh && 0 < maxCh <= STAGE_SAMPLES
    requires n <= STAGE_SAMPLES / maxCh
    ensures n * ch <= STAGE_SAMPLES
  {
    ProductMonotone(n, STAGE_SAMPLES / maxCh, maxCh);
    assert n * ch <= n * maxCh;
  }

  /** Frames the next chunk takes out of `left`: as many as both scratch buffers hold. */
  function NextChunk(inCh: nat, outCh: nat, left: nat): (n: nat)
    requires 0 < inCh <= STAGE_SAMPLES && 0 < outCh <= STAGE_SAMPLES && left > 0
    ensures 0 < n <= left && n * inCh <= STAGE_SAMPLES && n * outCh <= STAGE_SAMPLES
    ensures n < left ==> (n + 1) * inCh > 1024 || (n + 1) * outCh > 1024
  {
    var maxCh := Max(inCh, outCh);
    var n := Min(Max(STAGE_SAMPLES / maxCh, 1), left);
    ChunkFits(n, inCh, maxCh);
    ChunkFits(n, outCh, maxCh);
    n
  }

  method Fill(xs: seq<real>, buf: array<real>)
    requires |xs| <= buf.Length
    modifies buf
    ensures buf[..|xs|] == xs
  {
    forall i | 0 <= i < |xs| { buf[i] := xs[i]; }
  }

  /** Input planes still hold their original frames from `done` on. */
  ghost predicate Unread(inputs: seq<array<real>>, planes: seq<seq<real>>, done: nat, frames: nat)
    requires Long(inputs, |planes|, frames) && Cover(planes, frames)
    reads inputs
  {
    forall c, k :: 0 <= c < |planes| && done <= k < frames ==> inputs[c][k] == planes[c][k]
  }

  /** One chunk through the scratch buffers: all of its input is read before any of
      its output is written. */
  method StageChunk<S(!new)>(inputs: seq<array<real>>, outputs: seq<array<real>>, done: nat, n: nat, inCh: nat, outCh: nat,
                             f: (S, seq<real>) -> (S, seq<real>), s: S, inBuf: array<real>, outBuf: array<real>,
                             ghost inPlanes: seq<seq<real>>, ghost frames: nat)
    returns (next: S, ghost more: seq<real>)
    requires Long(inputs, inCh, frames) && Long(outputs, outCh, frames) && Distinct(outputs, outCh) && done + n <= frames
    requires |inPlanes| == inCh && Cover(inPlanes, frames) && Unread(inputs, inPlanes, done, frames)
    requires inBuf !in inputs && inBuf !in outputs && outBuf !in inputs && outBuf !in outputs && inBuf != outBuf
    requires inBuf.Length == outBuf.Length == STAGE_SAMPLES && n * inCh <= STAGE_SAMPLES && n * outCh <= STAGE_SAMPLES
    requires Chunk(f(s, Interleave(inPlanes, done, done + n)).1, outCh, n)
    modifies outputs[..outCh], inBuf, outBuf
    ensures (next, more) == f(s, Interleave(inPlanes, done, done + n)) && Chunk(more, outCh, n)
    ensures forall c :: 0 <= c < outCh ==> outputs[c][..] == Placed(old(outputs[c][..]), done, Channel(more, outCh, c, n))
    ensures Unread(inputs, inPlanes, done + n, frames)
  {
    Gather(inputs, inCh, done, n, inBuf);
    InterleaveAgrees(Planes(inputs, inCh), inPlanes, done, done + n);
    var result := f(s, inBuf[..n * inCh]);
    next := result.0;
    more := result.1;
    Fill(result.1, outBuf);
    Scatter(outputs, outCh, done, n, outBuf[..n * outCh]);
    forall c, k | 0 <= c < inCh && done + n <= k < frames ensures inputs[c][k] == inPlanes[c][k] {
      if inputs[c] in outputs[..outCh] {
        var d :| 0 <= d < outCh && outputs[d] == inputs[c];
        assert outputs[d][..][k] == old(outputs[d][..])[k];
      }
    }
  }

  /** Runs `f` over `frames` frames, reading the input planes and writing the output
      planes. The output planes end up with exactly the frames of one unchunked run on
      the input planes as they were, even if some input planes are output planes. */
  method RunStagedIo<S(!new)>(inputs: seq<array<real>>, outputs: seq<array<real>>, frames: nat, inCh: nat, outCh: nat,
                              f: (S, seq<real>) -> (S, seq<real>), s0: S) returns (s: S)
    requires Representable(inputs, outputs, frames, inCh, outCh) ==>
      Long(inputs, inCh, frames) && Long(outputs, outCh, frames) && Distinct(outputs, outCh) && SplitIndependent(f, inCh, outCh)
    modifies outputs[..Min(outCh, |outputs|)]
    ensures !Representable(inputs, outputs, frames, inCh, outCh) ==>
      s == s0 && forall c :: 0 <= c < |outputs| ==> outputs[c][..] == old(outputs[c][..])
    ensures Representable(inputs, outputs, frames, inCh, outCh) ==>
      var run := f(s0, Interleave(old(Planes(inputs, inCh)), 0, frames));
      s == run.0 && Written(Planes(outputs, outCh), old(Planes(outputs, outCh)), run.1, frames)
  {
    s := s0;
    if !Representable(inputs, outputs, frames, inCh, outCh) {
      return;
    }
    s := StageAll(inputs, outputs, frames, inCh, outCh, f, s0);
  }

  method StageAll<S(!new)>(inputs: seq<array<real>>, outputs: seq<array<real>>, frames: nat, inCh: nat, outCh: nat,
                           f: (S, seq<real>) -> (S, seq<real>), s0: S) returns (s: S)
    requires Representable(inputs, outputs, frames, inCh, outCh)
    requires Long(inputs, inCh, frames) && Long(outputs, outCh, frames) && Distinct(outputs, outCh)
    requires SplitIndependent(f, inCh, outCh)
    modifies outputs[..outCh]
    ensures var run := f(s0, Interleave(old(Planes(inputs, inCh)), 0, frames));
            s == run.0 && Written(Planes(outputs, outCh), old(Planes(outputs, outCh)), run.1, frames)
  {
    s := s0;
    ghost var inPlanes, outPlanes := Planes(inputs, inCh), Planes(outputs, outCh);
    var inBuf := new real[STAGE_SAMPLES](_ => 0.0);
    var outBuf := new real[STAGE_SAMPLES](_ => 0.0);
    var done := 0;
    ghost var outs: seq<real> := [];
    WrittenNothing(outPlanes);
    RanNowhere(f, s0, inPlanes, outCh);
    while done < frames
      invariant done <= frames
      invariant RanTo(f, s0, inPlanes, done, s, outs)
      invariant Written(Planes(outputs, outCh), outPlanes, outs, done)
      invariant Unread(inputs, inPlanes, done, frames)
    {
      var n := NextChunk(inCh, outCh, frames - done);
      s, outs, done := StageStep(inputs, outputs, done, n, inCh, outCh, f, s0, s, inBuf, outBuf, inPlanes, outPlanes, frames, outs);
    }
  }

  /** One iteration of the staged loop: the unchunked run and the written planes both
      advance by `n` frames. */
  method StageStep<S(!new)>(inputs: seq<array<real>>, outputs: seq<array<real>>, done: nat, n: nat, inCh: nat, outCh: nat,
                            f: (S, seq<real>) -> (S, seq<real>), ghost s0: S, s: S, inBuf: array<real>, outBuf: array<real>,
                            ghost inPlanes: seq<seq<real>>, ghost outPlanes: seq<seq<real>>, ghost frames: nat, ghost outs: seq<real>)
    returns (next: S, ghost grown: seq<real>, upto: nat)
    requires Long(inputs, inCh, frames) && Long(outputs, outCh, frames) && Distinct(outputs, outCh) && done + n <= frames
    requires |inPlanes| == inCh && Cover(inPlanes, frames) && Unread(inputs, inPlanes, done, frames)
    requires inBuf !in inputs && inBuf !in outputs && outBuf !in inputs && outBuf !in outputs && inBuf != outBuf
    requires inBuf.Length == outBuf.Length == STAGE_SAMPLES && n * inCh <= STAGE_SAMPLES && n * outCh <= STAGE_SAMPLES
    requires SplitIndependent(f, inCh, outCh)
    requires RanTo(f, s0, inPlanes, done, s, outs) && Written(Planes(outputs, outCh), outPlanes, outs, done)
    modifies outputs[..outCh], inBuf, outBuf
    ensures upto == done + n
    ensures RanTo(f, s0, inPlanes, upto, next, grown) && Written(Planes(outputs, outCh), outPlanes, grown, upto)
    ensures Unread(inputs, inPlanes, upto, frames)
  {
    RunStep(f, s0, s, outs, inPlanes, outCh, done, n);
    ghost var before, more := Planes(outputs, outCh), [];
    next, more := StageChunk(inputs, outputs, done, n, inCh, outCh, f, s, inBuf, outBuf, inPlanes, frames);
    WrittenStep(before, Planes(outputs, outCh), outPlanes, outs, done, more, n);
    grown, upto := outs + more, done + n;
  }

  lemma WrittenNothing(original: seq<seq<real>>)
    ensures Written(original, original, [], 0)
  {
  }
}
