/** What a run of resampler_cb_read calls produces from the callback's stream, however it is split. */
module ResamplerRuns {
  import opened Bytes
  import opened ResamplerMath

  /** Sample `c` of frame `i` in interleaved data. */
  function Index(i: nat, ch: nat, c: nat): nat { i * ch + c }

  predicate Covers(stream: seq<real>, ch: nat, frames: nat) { frames * ch <= |stream| }

  lemma IndexInside(i: nat, ch: nat, c: nat, n: nat)
    requires i < n && c < ch
    ensures Index(i, ch, c) < n * ch
  {
    var rest := n - (i + 1);
    assert rest * ch >= 0;
    assert n * ch == (i + 1) * ch + rest * ch;
    assert (i + 1) * ch == i * ch + ch;
  }

  function Sample(stream: seq<real>, ch: nat, i: nat, c: nat): real
    requires c < ch && Covers(stream, ch, i + 1)
  {
    IndexInside(i, ch, c, i + 1);
    stream[Index(i, ch, c)]
  }

  lemma CoversFewer(stream: seq<real>, ch: nat, m: nat, n: nat)
    requires m <= n && Covers(stream, ch, n)
    ensures Covers(stream, ch, m)
  {
    assert n * ch == m * ch + (n - m) * ch;
  }

  /** The last frame the stencil of output `x` reads, when the window starts at frame `base`. */
  function LastUsed(x: nat, ratio: real, base: nat): nat
    requires ratio > 0.0
  {
    var k := Position(x, ratio).Floor;
    if k == base then base + 2 else k + 1
  }

  /** The stencil of output frame `x` lies inside the stream. */
  predicate Usable(stream: seq<real>, ch: nat, x: nat, ratio: real, base: nat)
    requires ratio > 0.0
  {
    base <= Position(x, ratio).Floor && Covers(stream, ch, LastUsed(x, ratio, base) + 1)
  }

  /** The polynomial through three consecutive frames from `first`, at `v` past the first. */
  function Interpolated(stream: seq<real>, ch: nat, c: nat, first: nat, v: real): real
    requires c < ch && Covers(stream, ch, first + 3)
  {
    CoversFewer(stream, ch, first + 1, first + 3);
    CoversFewer(stream, ch, first + 2, first + 3);
    Quadratic(Sample(stream, ch, first, c), Sample(stream, ch, first + 1, c), Sample(stream, ch, first + 2, c), v)
  }

  /** Which frame the stencil starts at, and where in it position `p` lies: the two cases of resampler_process. */
  function Stencil(p: real, base: nat): (r: (nat, real))
    requires base <= p.Floor
  {
    var pos := p - base as real;
    var k := TruncReal(pos);
    if k == 0 then (base, pos) else (base + k - 1, pos - k as real + 1.0)
  }

  /** Both cases are three consecutive frames, evaluated inside or at their edge. */
  lemma StencilPlace(p: real, base: nat)
    requires base <= p.Floor
    ensures var (first, v) := Stencil(p, base);
            && 0.0 <= v < 2.0 && first as real + v == p
            && first + 2 == if p.Floor == base then base + 2 else p.Floor + 1
  {
    assert TruncReal(p - base as real) == p.Floor - base;
  }

  /** Output sample `c` of frame `x`, computed with the window at `base`. */
  function OutSample(stream: seq<real>, ch: nat, c: nat, x: nat, ratio: real, base: nat): real
    requires ratio > 0.0 && c < ch && Usable(stream, ch, x, ratio, base)
  {
    StencilPlace(Position(x, ratio), base);
    var (first, v) := Stencil(Position(x, ratio), base);
    Interpolated(stream, ch, c, first, v)
  }

  /** The stencil without its two cases. */
  lemma StencilShape(stream: seq<real>, ch: nat, c: nat, x: nat, ratio: real, base: nat)
    returns (first: nat, v: real)
    requires ratio > 0.0 && c < ch && Usable(stream, ch, x, ratio, base)
    ensures Covers(stream, ch, first + 3) && Covers(stream, ch, first + 2) && Covers(stream, ch, first + 1)
    ensures 0.0 <= v < 2.0 && first as real + v == Position(x, ratio)
    ensures OutSample(stream, ch, c, x, ratio, base)
            == Quadratic(Sample(stream, ch, first, c), Sample(stream, ch, first + 1, c),
                         Sample(stream, ch, first + 2, c), v)
  {
    StencilPlace(Position(x, ratio), base);
    var (f, w) := Stencil(Position(x, ratio), base);
    first, v := f, w;
    CoversFewer(stream, ch, first + 1, first + 3);
    CoversFewer(stream, ch, first + 2, first + 3);
  }

  // ----- exactness -----

  /** Channel `c` of the stream samples the polynomial `p` at the frame numbers. */
  ghost predicate Samples(stream: seq<real>, ch: nat, c: nat, p: Poly)
    requires c < ch
  {
    forall i: nat :: Covers(stream, ch, i + 1) ==> Sample(stream, ch, i, c) == p.At(i as real)
  }

  /** A quadratic input is reproduced exactly at every output position, wherever the window starts. */
  lemma ExactOnQuadratics(stream: seq<real>, ch: nat, c: nat, x: nat, ratio: real, base: nat, p: Poly)
    requires ratio > 0.0 && c < ch && Usable(stream, ch, x, ratio, base) && Samples(stream, ch, c, p)
    ensures OutSample(stream, ch, c, x, ratio, base) == p.At(Position(x, ratio))
  {
    var first, v := StencilShape(stream, ch, c, x, ratio, base);
    assert (first + 1) as real == first as real + 1.0 && (first + 2) as real == first as real + 2.0;
    QuadraticReproduces(p, first as real, v);
  }

  /** Where an output position falls on an input frame, the output is that frame. */
  lemma ExactAtFrames(stream: seq<real>, ch: nat, c: nat, x: nat, ratio: real, base: nat, k: nat)
    requires ratio > 0.0 && c < ch && Usable(stream, ch, x, ratio, base)
    requires Position(x, ratio) == k as real
    ensures Covers(stream, ch, k + 1)
    ensures OutSample(stream, ch, c, x, ratio, base) == Sample(stream, ch, k, c)
  {
    var first, v := StencilShape(stream, ch, c, x, ratio, base);
    assert v == (k - first) as real;
    assert k == first || k == first + 1;
    QuadraticAtNodes(Sample(stream, ch, first, c), Sample(stream, ch, first + 1, c), Sample(stream, ch, first + 2, c));
  }

  ghost predicate BoundedBy(stream: seq<real>, m: real) { forall i :: 0 <= i < |stream| ==> Abs(stream[i]) <= m }

  /** Bounded input gives output bounded by 5/4 of it. */
  lemma OutputBounded(stream: seq<real>, ch: nat, c: nat, x: nat, ratio: real, base: nat, m: real)
    requires ratio > 0.0 && c < ch && Usable(stream, ch, x, ratio, base) && BoundedBy(stream, m)
    ensures Abs(OutSample(stream, ch, c, x, ratio, base)) <= 1.25 * m
  {
    var first, v := StencilShape(stream, ch, c, x, ratio, base);
    Overshoot(Sample(stream, ch, first, c), Sample(stream, ch, first + 1, c), Sample(stream, ch, first + 2, c), v, m);
  }

  // ----- one read: what it asks for and what it uses -----

  /** A read that stays inside the frames resampler_get_required_frames asks for. */
  predicate SafeRead(start: nat, frames: nat, ratio: real)
    requires ratio > 0.0
  {
    frames > 0 ==> SumInput(start, ratio) < Position(start + frames, ratio).Floor
  }

  /**
   The frames asked for cover every stencil of the read exactly when the read advances the input by a
   frame: the stencil at the window start needs three frames, and only two may have been asked for.
   */
  lemma RequestSufficesIff(start: nat, frames: nat, ratio: real)
    requires ratio > 0.0
    ensures (forall x :: start <= x < start + frames ==>
                LastUsed(x, ratio, SumInput(start, ratio)) < Needed(start + frames, ratio))
            <==> SafeRead(start, frames, ratio)
  {
    var base := SumInput(start, ratio);
    NeededIs(start + frames, ratio);
    forall x | start <= x < start + frames && SafeRead(start, frames, ratio)
      ensures LastUsed(x, ratio, base) < Needed(start + frames, ratio)
    {
      PositionMonotone(x, start + frames, ratio);
    }
    if frames > 0 && !SafeRead(start, frames, ratio) {
      PositionMonotone(start, start + frames, ratio);
      WindowNotAhead(start, start, ratio);
      assert LastUsed(start, ratio, base) == base + 2;
    }
  }

  /** Reads of at least `ratio` output frames are safe; the source does not check for it. */
  lemma LongReadsAreSafe(start: nat, frames: nat, ratio: real)
    requires ratio > 0.0 && frames as real >= ratio
    ensures SafeRead(start, frames, ratio)
  {
    WindowNotAhead(start, start, ratio);
    PositionAtLeastOne(frames, ratio);
    PositionSum(start, frames, ratio);
  }

  lemma WindowNotAhead(start: nat, x: nat, ratio: real)
    requires ratio > 0.0 && start <= x
    ensures SumInput(start, ratio) <= Position(x, ratio).Floor
  {
    if start > 0 {
      PositionMonotone(start - 1, x, ratio);
    }
  }

  /**
   The exact condition on what is buffered: once the buffer holds the frames asked for, every index of a
   read lies inside it exactly when the read is empty, advances the input, or finds three frames.
   */
  lemma ReadInsideIff(start: nat, n: nat, ratio: real, frames: nat)
    requires ratio > 0.0 && Needed(start + n, ratio) <= SumInput(start, ratio) + frames
    ensures (forall x :: start <= x < start + n ==>
                LastUsed(x, ratio, SumInput(start, ratio)) < SumInput(start, ratio) + frames)
            <==> n == 0 || SafeRead(start, n, ratio) || frames >= 3
  {
    var base := SumInput(start, ratio);
    RequestSufficesIff(start, n, ratio);
    if n > 0 && !SafeRead(start, n, ratio) {
      forall x | start <= x < start + n ensures LastUsed(x, ratio, base) == base + 2 {
        WindowNotAhead(start, x, ratio);
        PositionMonotone(x, start + n, ratio);
      }
      assert LastUsed(start, ratio, base) == base + 2;
    }
  }

  /** It happens: at ratio 2 a read of one frame asks for two frames and reads the third. */
  lemma ReadLeavesBuffer()
    ensures Needed(1, 2.0) == 2 && !SafeRead(0, 1, 2.0)
    ensures LastUsed(0, 2.0, SumInput(0, 2.0)) == 2
  {
    assert Position(0, 2.0) == 0.0 && Position(1, 2.0) == 0.5;
    NeededIs(1, 2.0);
  }

  ghost predicate AllUsable(stream: seq<real>, ch: nat, lo: nat, hi: nat, ratio: real, base: nat)
    requires ratio > 0.0
  {
    forall x: nat :: lo <= x < hi ==> Usable(stream, ch, x, ratio, base)
  }

  /** Every stencil of a read lies in the stream. */
  ghost predicate ReadOk(stream: seq<real>, ch: nat, start: nat, frames: nat, ratio: real)
    requires ratio > 0.0
  {
    AllUsable(stream, ch, start, start + frames, ratio, SumInput(start, ratio))
  }

  /** The same condition puts the whole read in a stream that reaches to the end of the buffer. */
  lemma InsideReadOk(stream: seq<real>, ch: nat, start: nat, n: nat, ratio: real, frames: nat)
    requires ratio > 0.0 && Needed(start + n, ratio) <= SumInput(start, ratio) + frames
    requires Covers(stream, ch, SumInput(start, ratio) + frames)
    requires n == 0 || SafeRead(start, n, ratio) || frames >= 3
    ensures ReadOk(stream, ch, start, n, ratio)
  {
    var base := SumInput(start, ratio);
    ReadInsideIff(start, n, ratio, frames);
    forall x: nat | start <= x < start + n ensures Usable(stream, ch, x, ratio, base) {
      WindowNotAhead(start, x, ratio);
      CoversFewer(stream, ch, LastUsed(x, ratio, base) + 1, base + frames);
    }
  }

  /** One output frame: a sample for each channel. */
  function OutFrame(stream: seq<real>, ch: nat, x: nat, ratio: real, base: nat): (frame: seq<real>)
    requires ratio > 0.0 && Usable(stream, ch, x, ratio, base)
    ensures |frame| == ch
    ensures forall c :: 0 <= c < ch ==> frame[c] == OutSample(stream, ch, c, x, ratio, base)
  {
    seq(ch, c requires 0 <= c < ch => OutSample(stream, ch, c, x, ratio, base))
  }

  /** Output frames `lo` up to `hi`, all computed with the window at `base`. */
  ghost function Frames(stream: seq<real>, ch: nat, lo: nat, hi: nat, ratio: real, base: nat): (out: seq<seq<real>>)
    requires ratio > 0.0 && lo <= hi && AllUsable(stream, ch, lo, hi, ratio, base)
    ensures |out| == hi - lo
  {
    if lo == hi then []
    else Frames(stream, ch, lo, hi - 1, ratio, base) + [OutFrame(stream, ch, hi - 1, ratio, base)]
  }

  lemma {:induction false} FrameAt(stream: seq<real>, ch: nat, lo: nat, hi: nat, ratio: real, base: nat, x: nat)
    requires ratio > 0.0 && lo <= x < hi && AllUsable(stream, ch, lo, hi, ratio, base)
    ensures Frames(stream, ch, lo, hi, ratio, base)[x - lo] == OutFrame(stream, ch, x, ratio, base)
    decreases hi
  {
    if x < hi - 1 {
      FrameAt(stream, ch, lo, hi - 1, ratio, base, x);
    }
  }

  /** The frames one read returns. */
  ghost function ReadOut(stream: seq<real>, ch: nat, start: nat, frames: nat, ratio: real): (out: seq<seq<real>>)
    requires ratio > 0.0 && ReadOk(stream, ch, start, frames, ratio)
    ensures |out| == frames
  {
    Frames(stream, ch, start, start + frames, ratio, SumInput(start, ratio))
  }

  // ----- a session: any sequence of reads -----

  function Total(counts: seq<nat>): nat {
    if counts == [] then 0 else Total(counts[..|counts| - 1]) + counts[|counts| - 1]
  }

  ghost predicate SessionOk(stream: seq<real>, ch: nat, counts: seq<nat>, ratio: real)
    requires ratio > 0.0
  {
    counts == [] || (var before := counts[..|counts| - 1];
                    SessionOk(stream, ch, before, ratio)
                    && ReadOk(stream, ch, Total(before), counts[|counts| - 1], ratio))
  }

  /** Everything the reads returned, in order. */
  ghost function Session(stream: seq<real>, ch: nat, counts: seq<nat>, ratio: real): (out: seq<seq<real>>)
    requires ratio > 0.0 && SessionOk(stream, ch, counts, ratio)
    ensures |out| == Total(counts)
  {
    if counts == [] then []
    else
      var before := counts[..|counts| - 1];
      Session(stream, ch, before, ratio) + ReadOut(stream, ch, Total(before), counts[|counts| - 1], ratio)
  }

  /** Output frame `x` of a session is computed from some window that is not ahead of it. */
  lemma {:induction false} SessionFrame(stream: seq<real>, ch: nat, counts: seq<nat>, ratio: real, x: nat)
    returns (base: nat)
    requires ratio > 0.0 && SessionOk(stream, ch, counts, ratio) && x < Total(counts)
    ensures Usable(stream, ch, x, ratio, base)
    ensures Session(stream, ch, counts, ratio)[x] == OutFrame(stream, ch, x, ratio, base)
  {
    var before := counts[..|counts| - 1];
    if x < Total(before) {
      base := SessionFrame(stream, ch, before, ratio, x);
    } else {
      var start := Total(before);
      base := SumInput(start, ratio);
      FrameAt(stream, ch, start, Total(counts), ratio, base, x);
    }
  }

  /** Every output frame of a session over quadratic channels is exact, for every split into reads. */
  lemma SessionExact(stream: seq<real>, ch: nat, counts: seq<nat>, ratio: real, p: Poly, x: nat, c: nat)
    requires ratio > 0.0 && SessionOk(stream, ch, counts, ratio) && x < Total(counts) && c < ch
    requires Samples(stream, ch, c, p)
    ensures |Session(stream, ch, counts, ratio)[x]| == ch
    ensures Session(stream, ch, counts, ratio)[x][c] == p.At(Position(x, ratio))
  {
    var base := SessionFrame(stream, ch, counts, ratio, x);
    ExactOnQuadratics(stream, ch, c, x, ratio, base, p);
  }

  /** So on quadratic channels the split into reads does not matter. */
  lemma SplitIndependentOnQuadratics(
      stream: seq<real>, ch: nat, r1: seq<nat>, r2: seq<nat>, ratio: real, polys: seq<Poly>)
    requires ratio > 0.0 && SessionOk(stream, ch, r1, ratio) && SessionOk(stream, ch, r2, ratio)
    requires Total(r1) == Total(r2) && |polys| == ch
    requires forall c :: 0 <= c < ch ==> Samples(stream, ch, c, polys[c])
    ensures Session(stream, ch, r1, ratio) == Session(stream, ch, r2, ratio)
  {
    forall x | 0 <= x < Total(r1)
      ensures Session(stream, ch, r1, ratio)[x] == Session(stream, ch, r2, ratio)[x]
    {
      var b1 := SessionFrame(stream, ch, r1, ratio, x);
      var b2 := SessionFrame(stream, ch, r2, ratio, x);
      SameFrameOnQuadratics(stream, ch, x, ratio, b1, b2, polys);
    }
  }

  lemma SameFrameOnQuadratics(stream: seq<real>, ch: nat, x: nat, ratio: real, b1: nat, b2: nat, polys: seq<Poly>)
    requires ratio > 0.0 && Usable(stream, ch, x, ratio, b1) && Usable(stream, ch, x, ratio, b2) && |polys| == ch
    requires forall c :: 0 <= c < ch ==> Samples(stream, ch, c, polys[c])
    ensures OutFrame(stream, ch, x, ratio, b1) == OutFrame(stream, ch, x, ratio, b2)
  {
    forall c | 0 <= c < ch
      ensures OutSample(stream, ch, c, x, ratio, b1) == OutSample(stream, ch, c, x, ratio, b2)
    {
      ExactOnQuadratics(stream, ch, c, x, ratio, b1, polys[c]);
      ExactOnQuadratics(stream, ch, c, x, ratio, b2, polys[c]);
    }
  }

  /** On any stream, an output position that is an input frame number returns that input frame. */
  lemma SessionAtFrames(stream: seq<real>, ch: nat, counts: seq<nat>, ratio: real, x: nat, c: nat, k: nat)
    requires ratio > 0.0 && SessionOk(stream, ch, counts, ratio) && x < Total(counts) && c < ch
    requires Position(x, ratio) == k as real
    ensures Covers(stream, ch, k + 1) && |Session(stream, ch, counts, ratio)[x]| == ch
    ensures Session(stream, ch, counts, ratio)[x][c] == Sample(stream, ch, k, c)
  {
    var base := SessionFrame(stream, ch, counts, ratio, x);
    ExactAtFrames(stream, ch, c, x, ratio, base, k);
  }

  /** So ratio 1 is the identity, for every split into reads. */
  lemma UnitRatioIsIdentity(stream: seq<real>, ch: nat, counts: seq<nat>, x: nat, c: nat)
    requires SessionOk(stream, ch, counts, 1.0) && x < Total(counts) && c < ch
    ensures Covers(stream, ch, x + 1) && |Session(stream, ch, counts, 1.0)[x]| == ch
    ensures Session(stream, ch, counts, 1.0)[x][c] == Sample(stream, ch, x, c)
  {
    SessionAtFrames(stream, ch, counts, 1.0, x, c, x);
  }

  /** No session overshoots a bounded stream by more than a quarter. */
  lemma SessionBounded(stream: seq<real>, ch: nat, counts: seq<nat>, ratio: real, m: real, x: nat, c: nat)
    requires ratio > 0.0 && SessionOk(stream, ch, counts, ratio) && x < Total(counts) && c < ch
    requires BoundedBy(stream, m)
    ensures |Session(stream, ch, counts, ratio)[x]| == ch
    ensures Abs(Session(stream, ch, counts, ratio)[x][c]) <= 1.25 * m
  {
    var base := SessionFrame(stream, ch, counts, ratio, x);
    OutputBounded(stream, ch, c, x, ratio, base, m);
  }

  // ----- growth of the stream -----

  lemma SampleExtend(stream: seq<real>, more: seq<real>, ch: nat, i: nat, c: nat)
    requires c < ch && Covers(stream, ch, i + 1)
    ensures Covers(stream + more, ch, i + 1)
    ensures Sample(stream + more, ch, i, c) == Sample(stream, ch, i, c)
  {
    IndexInside(i, ch, c, i + 1);
  }

  lemma OutSampleExtend(stream: seq<real>, more: seq<real>, ch: nat, c: nat, x: nat, ratio: real, base: nat)
    requires ratio > 0.0 && c < ch && Usable(stream, ch, x, ratio, base)
    ensures Usable(stream + more, ch, x, ratio, base)
    ensures OutSample(stream + more, ch, c, x, ratio, base) == OutSample(stream, ch, c, x, ratio, base)
  {
    StencilPlace(Position(x, ratio), base);
    var (first, v) := Stencil(Position(x, ratio), base);
    CoversFewer(stream, ch, first + 1, first + 3);
    CoversFewer(stream, ch, first + 2, first + 3);
    SampleExtend(stream, more, ch, first, c);
    SampleExtend(stream, more, ch, first + 1, c);
    SampleExtend(stream, more, ch, first + 2, c);
  }

  lemma OutFrameExtend(stream: seq<real>, more: seq<real>, ch: nat, x: nat, ratio: real, base: nat)
    requires ratio > 0.0 && Usable(stream, ch, x, ratio, base)
    ensures Usable(stream + more, ch, x, ratio, base)
    ensures OutFrame(stream + more, ch, x, ratio, base) == OutFrame(stream, ch, x, ratio, base)
  {
    forall c | 0 <= c < ch
      ensures OutSample(stream + more, ch, c, x, ratio, base) == OutSample(stream, ch, c, x, ratio, base)
    {
      OutSampleExtend(stream, more, ch, c, x, ratio, base);
    }
  }

  lemma {:induction false} FramesExtend(
      stream: seq<real>, more: seq<real>, ch: nat, lo: nat, hi: nat, ratio: real, base: nat)
    requires ratio > 0.0 && lo <= hi && AllUsable(stream, ch, lo, hi, ratio, base)
    ensures AllUsable(stream + more, ch, lo, hi, ratio, base)
    ensures Frames(stream + more, ch, lo, hi, ratio, base) == Frames(stream, ch, lo, hi, ratio, base)
    decreases hi
  {
    if lo < hi {
      FramesExtend(stream, more, ch, lo, hi - 1, ratio, base);
      OutFrameExtend(stream, more, ch, hi - 1, ratio, base);
    }
  }

  lemma ReadOutExtend(stream: seq<real>, more: seq<real>, ch: nat, start: nat, frames: nat, ratio: real)
    requires ratio > 0.0 && ReadOk(stream, ch, start, frames, ratio)
    ensures ReadOk(stream + more, ch, start, frames, ratio)
    ensures ReadOut(stream + more, ch, start, frames, ratio) == ReadOut(stream, ch, start, frames, ratio)
  {
    FramesExtend(stream, more, ch, start, start + frames, ratio, SumInput(start, ratio));
  }

  lemma {:induction false} SessionExtend(stream: seq<real>, more: seq<real>, ch: nat, counts: seq<nat>, ratio: real)
    requires ratio > 0.0 && SessionOk(stream, ch, counts, ratio)
    ensures SessionOk(stream + more, ch, counts, ratio)
    ensures Session(stream + more, ch, counts, ratio) == Session(stream, ch, counts, ratio)
  {
    if counts != [] {
      var before := counts[..|counts| - 1];
      SessionExtend(stream, more, ch, before, ratio);
      ReadOutExtend(stream, more, ch, Total(before), counts[|counts| - 1], ratio);
    }
  }
}
