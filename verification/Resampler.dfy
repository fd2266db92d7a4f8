/** The streaming resampler of src/resampler.c, in place, proved against ResamplerRuns.Session. */
module Resampler {
  import opened Bytes
  import opened ResamplerMath
  import opened ResamplerRuns

  /** The callback: hands out interleaved blocks of whole frames of any size; an empty one ends the data. */
  class FrameSource {
    const channels: nat
    const limit: nat          // frames in the largest block
    var blocks: seq<seq<real>>
    ghost var given: seq<real>

    ghost predicate Valid()
      reads this
    {
      && channels >= 1
      && forall i :: 0 <= i < |blocks| ==> WholeFrames(blocks[i], channels, limit)
    }

    constructor (channels: nat, limit: nat, blocks: seq<seq<real>>)
      requires channels >= 1
      requires forall i :: 0 <= i < |blocks| ==> WholeFrames(blocks[i], channels, limit)
      ensures Valid() && this.blocks == blocks && given == []
      ensures this.channels == channels && this.limit == limit
    {
      this.channels, this.limit, this.blocks, given := channels, limit, blocks, [];
    }

    method Pull() returns (block: seq<real>, frames: nat)
      requires Valid()
      modifies this
      ensures Valid() && given == old(given) + block
      ensures frames <= limit && |block| == frames * channels
      ensures old(blocks) == [] ==> frames == 0
      ensures old(blocks) == [] ==> block == [] && blocks == []
      ensures old(blocks) != [] ==> block == old(blocks)[0]
      ensures old(blocks) != [] ==> frames == FrameCount(old(blocks)[0], channels) && blocks == old(blocks)[1..]
    {
      if blocks == [] {
        return [], 0;
      }
      block := blocks[0];
      frames := FrameCount(block, channels);
      assert |block| == frames * channels && frames <= limit by {
        var n :| n <= limit && |block| == n * channels;
        DivModUnique(|block|, n, 0, channels);
      }
      blocks := blocks[1..];
      given := given + block;
    }
  }

  function FrameCount(block: seq<real>, channels: nat): nat
    requires channels >= 1
  {
    |block| / channels
  }

  // ----- what the callback delivers -----

  /** The frames of the first `k` blocks. */
  ghost function FrameSum(blocks: seq<seq<real>>, channels: nat, k: nat): nat
    requires channels >= 1 && k <= |blocks|
  {
    if k == 0 then 0 else FrameSum(blocks, channels, k - 1) + FrameCount(blocks[k - 1], channels)
  }

  /** The samples of the first `k` blocks. */
  ghost function Joined(blocks: seq<seq<real>>, k: nat): seq<real>
    requires k <= |blocks|
  {
    if k == 0 then [] else Joined(blocks, k - 1) + blocks[k - 1]
  }

  /** No empty block is among the first `k`. */
  ghost predicate Delivers(blocks: seq<seq<real>>, channels: nat, k: nat)
    requires channels >= 1
  {
    k <= |blocks| && forall i :: 0 <= i < k ==> FrameCount(blocks[i], channels) > 0
  }

  /** All blocks before the first empty one, or the end, make up less than `missing` frames. */
  ghost predicate RunsDry(blocks: seq<seq<real>>, channels: nat, missing: int)
    requires channels >= 1
  {
    forall k: nat :: Delivers(blocks, channels, k) ==> FrameSum(blocks, channels, k) < missing
  }

  /** `k` is the smallest number of blocks that make up for `missing` frames. */
  ghost predicate Fewest(blocks: seq<seq<real>>, channels: nat, missing: int, k: nat)
    requires channels >= 1
  {
    && Delivers(blocks, channels, k) && FrameSum(blocks, channels, k) >= missing
    && forall j: nat :: j < k ==> FrameSum(blocks, channels, j) < missing
  }

  /** The callback was asked for `k` blocks and the empty one, or none, behind them; `rest` is what it still has. */
  ghost predicate Exhausted(blocks: seq<seq<real>>, channels: nat, k: nat, rest: seq<seq<real>>)
    requires channels >= 1
  {
    && Delivers(blocks, channels, k)
    && if k < |blocks| then FrameCount(blocks[k], channels) == 0 && rest == blocks[k + 1..] else rest == []
  }

  /** The loop of resampler_cb_read after `k` blocks, too few so far or not. */
  ghost predicate Pulling(blocks: seq<seq<real>>, channels: nat, must: nat, k: nat, got: nat, pulled: seq<real>)
    requires channels >= 1
  {
    && Delivers(blocks, channels, k) && got == FrameSum(blocks, channels, k) && pulled == Joined(blocks, k)
    && forall j: nat :: j < k ==> FrameSum(blocks, channels, j) < must
  }

  lemma PullOne(blocks: seq<seq<real>>, channels: nat, must: nat, k: nat, got: nat, pulled: seq<real>)
    requires channels >= 1 && Pulling(blocks, channels, must, k, got, pulled) && got < must
    requires k < |blocks| && FrameCount(blocks[k], channels) > 0
    ensures Pulling(blocks, channels, must, k + 1, got + FrameCount(blocks[k], channels), pulled + blocks[k])
  {
  }

  lemma PullNone(blocks: seq<seq<real>>, channels: nat, must: nat, k: nat, got: nat, pulled: seq<real>)
    requires channels >= 1 && Pulling(blocks, channels, must, k, got, pulled) && got < must
    requires k < |blocks| ==> FrameCount(blocks[k], channels) == 0
    ensures RunsDry(blocks, channels, must)
  {
    forall m: nat | Delivers(blocks, channels, m) ensures FrameSum(blocks, channels, m) < must {
      assert m <= k;
    }
  }

  /** How many frames the callback loop ends up with when it needs `must`; None when the callback runs dry first. */
  function Supplied(blocks: seq<seq<real>>, channels: nat, must: nat, got: nat): (r: Option<nat>)
    requires channels >= 1
    ensures r.Some? ==> r.value >= must && r.value >= got
    decreases |blocks|
  {
    if got >= must then Some(got)
    else if blocks == [] || FrameCount(blocks[0], channels) == 0 then None
    else Supplied(blocks[1..], channels, must, got + FrameCount(blocks[0], channels))
  }

  /** What `Supplied` computes, from any block on. */
  lemma {:induction false} SuppliedFrom(blocks: seq<seq<real>>, channels: nat, must: nat, at: nat, k: nat)
    requires channels >= 1 && at <= |blocks| && Delivers(blocks, channels, at)
    requires Fewest(blocks, channels, must, k) ==> at <= k
    requires Fewest(blocks, channels, must, k) || RunsDry(blocks, channels, must)
    ensures Supplied(blocks[at..], channels, must, FrameSum(blocks, channels, at))
         == if RunsDry(blocks, channels, must) then None else Some(FrameSum(blocks, channels, k))
    decreases |blocks| - at
  {
    if at < |blocks| && FrameCount(blocks[at], channels) > 0 && FrameSum(blocks, channels, at) < must {
      assert blocks[at..][0] == blocks[at] && blocks[at..][1..] == blocks[at + 1..];
      SuppliedFrom(blocks, channels, must, at + 1, k);
    } else if FrameSum(blocks, channels, at) < must {
      PullNone(blocks, channels, must, at, FrameSum(blocks, channels, at), Joined(blocks, at));
    }
  }

  /** The frames buffered once `frames` of them have been filled up to `must`. */
  function Filled(frames: nat, blocks: seq<seq<real>>, channels: nat, must: int): (r: Option<nat>)
    requires channels >= 1
    ensures r.Some? ==> r.value >= must && r.value >= frames
  {
    if must <= frames then Some(frames)
    else
      var more := Supplied(blocks, channels, must - frames, 0);
      if more.None? then None else Some(frames + more.value)
  }

  /** With this callback, a read runs dry or uses buffered frames only. */
  ghost predicate StaysInside(frames: nat, blocks: seq<seq<real>>, channels: nat, start: nat, n: nat, ratio: real)
    requires channels >= 1 && ratio > 0.0
  {
    var base := SumInput(start, ratio);
    var filled := Filled(frames, blocks, channels, Needed(start + n, ratio) - base);
    filled.Some? ==> forall x :: start <= x < start + n ==> LastUsed(x, ratio, base) < base + filled.value
  }

  lemma InsideWhen(frames: nat, blocks: seq<seq<real>>, channels: nat, start: nat, n: nat, ratio: real)
    requires channels >= 1 && ratio > 0.0
    ensures var filled := Filled(frames, blocks, channels, Needed(start + n, ratio) - SumInput(start, ratio));
            StaysInside(frames, blocks, channels, start, n, ratio)
            <==> filled.None? || n == 0 || SafeRead(start, n, ratio) || filled.value >= 3
  {
    var filled := Filled(frames, blocks, channels, Needed(start + n, ratio) - SumInput(start, ratio));
    if filled.Some? {
      ReadInsideIff(start, n, ratio, filled.value);
    }
  }

  /** A callback that returns frame by frame stops at the two frames such a read asks for. */
  lemma FrameByFrameFails(frames: nat, channels: nat, start: nat, n: nat, ratio: real)
    requires channels >= 1 && ratio > 0.0 && frames < 3 && n > 0 && !SafeRead(start, n, ratio)
    ensures exists blocks :: !StaysInside(frames, blocks, channels, start, n, ratio)
  {
    var frame := seq(channels, i => 0.0);
    var blocks := [frame, frame];
    NeededIs(start + n, ratio);
    WindowNotAhead(start, start + n, ratio);
    var must := Needed(start + n, ratio) - SumInput(start, ratio);
    assert must == 2;
    DivModUnique(channels, 1, 0, channels);
    assert FrameCount(frame, channels) == 1 && blocks[1..][0] == frame;
    assert Supplied(blocks[1..][1..], channels, 2, 2) == Some(2);
    assert Supplied(blocks[1..], channels, 2, 1) == Some(2);
    assert Supplied(blocks[1..], channels, 1, 1) == Some(1);
    InsideWhen(frames, blocks, channels, start, n, ratio);
  }

  /**
   What a caller can check beforehand: whatever the callback returns, the read runs dry or stays inside the
   buffered frames, exactly when it is empty, advances the input, or has three frames already.
   */
  lemma AnyCallbackIff(frames: nat, channels: nat, start: nat, n: nat, ratio: real)
    requires channels >= 1 && ratio > 0.0
    ensures (forall blocks :: StaysInside(frames, blocks, channels, start, n, ratio))
            <==> n == 0 || SafeRead(start, n, ratio) || frames >= 3
  {
    if n == 0 || SafeRead(start, n, ratio) || frames >= 3 {
      forall blocks ensures StaysInside(frames, blocks, channels, start, n, ratio) {
        InsideWhen(frames, blocks, channels, start, n, ratio);
      }
    } else {
      FrameByFrameFails(frames, channels, start, n, ratio);
    }
  }

  /**
   A read that leaves the buffered frames: ratio 2, mono, one output frame, a callback that returns frame by
   frame. Two frames are asked for and buffered, and the stencil of output frame 0 reads the third.
   */
  lemma ShortReadLeavesBuffer(a: real, b: real, blocks: seq<seq<real>>)
    ensures Supplied([[a], [b]] + blocks, 1, Needed(1, 2.0) - SumInput(0, 2.0), 0) == Some(2)
    ensures LastUsed(0, 2.0, SumInput(0, 2.0)) == SumInput(0, 2.0) + 2
    ensures !SafeRead(0, 1, 2.0)
  {
    ReadLeavesBuffer();
    var all := [[a], [b]] + blocks;
    assert all[1..][0] == [b] && FrameCount([a], 1) == 1 && FrameCount([b], 1) == 1;
    assert Supplied(all[1..][1..], 1, 2, 2) == Some(2);
    assert Supplied(all[1..], 1, 2, 1) == Some(2);
  }

  ghost predicate WholeFrames(block: seq<real>, channels: nat, limit: nat) {
    exists n: nat :: n <= limit && |block| == n * channels
  }

  class Resampler {
    const ratio: real
    const channels: nat
    const source: FrameSource
    var data: array<real>
    var dataPtr: nat          // samples in use
    var sumOutputFrames: nat
    var sumInputFrames: nat
    ghost var frames: nat         // dataPtr in frames
    ghost var stream: seq<real>   // all input so far
    ghost var counts: seq<nat>    // the reads so far
    ghost var output: seq<seq<real>>

    /** The most the buffer ever holds, in frames. */
    ghost function Capacity(): int
      requires ratio > 0.0
    {
      source.limit + 1 + Ceil(1.0 / ratio)
    }

    /** The buffer is the stream from sum_input_frames on. */
    ghost predicate Window()
      reads this, source, data
    {
      && ratio > 0.0 && channels >= 1
      && source.Valid() && source.channels == channels
      && dataPtr == frames * channels && dataPtr <= data.Length
      && |stream| == sumInputFrames * channels + dataPtr
      && data[..dataPtr] == stream[sumInputFrames * channels..]
    }

    ghost predicate Valid()
      reads this, source, data
    {
      && Window()
      && sumOutputFrames == Total(counts)
      && sumInputFrames == SumInput(sumOutputFrames, ratio)
      && SessionOk(stream, channels, counts, ratio)
      && output == Session(stream, channels, counts, ratio)
      && frames <= Capacity()
    }

    /** resampler_new, for a callback and a channel count it does not refuse. */
    constructor (source: FrameSource, ratio: real)
      requires source.Valid() && ratio > 0.0
      ensures Valid() && fresh(data)
      ensures this.source == source && this.ratio == ratio && channels == source.channels
      ensures stream == [] && counts == []
    {
      this.source, this.ratio, channels := source, ratio, source.channels;
      data := new real[0];
      dataPtr, sumOutputFrames, sumInputFrames := 0, 0, 0;
      frames, stream, counts, output := 0, [], [], [];
      new;
      CeilNotNegative(1.0 / ratio);
    }

    method RequiredFrames(n: nat) returns (required: nat)
      requires ratio > 0.0 && sumInputFrames == SumInput(sumOutputFrames, ratio)
      ensures required == Needed(sumOutputFrames + n, ratio) - sumInputFrames
    {
      var afterSum := sumOutputFrames + n;
      var minInputFrames := ((afterSum as real / ratio) + 2.0).Floor;
      NeededIs(afterSum, ratio);
      SumInputMonotone(sumOutputFrames, afterSum, ratio);
      required := minInputFrames - sumInputFrames;
    }

    /** One interpolated sample: the inner body of resampler_process. */
    method Interpolate(x: nat, c: nat) returns (y: real)
      requires Window() && c < channels && Usable(stream, channels, x, ratio, sumInputFrames)
      ensures y == OutSample(stream, channels, c, x, ratio, sumInputFrames)
    {
      var posIn := PositionIn(x);
      var k := TruncReal(posIn);
      var first, v := 0, posIn;
      if k != 0 {
        first, v := k - 1, posIn - k as real + 1.0;
      }
      ghost var last := LastUsed(x, ratio, sumInputFrames) + 1;
      CoversFewer(stream, channels, sumInputFrames + first + 1, last);
      CoversFewer(stream, channels, sumInputFrames + first + 2, last);
      BufferedSample(stream, data[..dataPtr], channels, sumInputFrames, first, c);
      BufferedSample(stream, data[..dataPtr], channels, sumInputFrames, first + 1, c);
      BufferedSample(stream, data[..dataPtr], channels, sumInputFrames, first + 2, c);
      y := Quadratic(data[Index(first, channels, c)], data[Index(first + 1, channels, c)],
                     data[Index(first + 2, channels, c)], v);
    }

    /** One output frame, all channels. */
    method ProcessFrame(x: nat, posOut: nat, out: array<real>)
      requires Window() && out != data && Usable(stream, channels, x, ratio, sumInputFrames)
      requires posOut * channels + channels <= out.Length
      modifies out
      ensures out[..] == Splice(old(out[..]), posOut * channels, OutFrame(stream, channels, x, ratio, sumInputFrames))
    {
      ghost var frame, before := OutFrame(stream, channels, x, ratio, sumInputFrames), out[..];
      var c, at := 0, posOut * channels;
      while c < channels
        invariant c <= channels
        invariant PartWritten(before, frame, at, c, out[..])
      {
        ghost var now := out[..];
        var y := Interpolate(x, c);
        out[posOut * channels + c] := y;
        assert out[..] == now[at + c := y];
        PartStep(before, frame, at, c, now);
        c := c + 1;
      }
    }

    method NextFrame(k: nat, out: array<real>, ghost before: seq<real>, ghost frames: seq<seq<real>>)
      requires Window() && out != data && k < |frames| && Rows(frames, channels)
      requires Usable(stream, channels, sumOutputFrames + k, ratio, sumInputFrames)
      requires frames[k] == OutFrame(stream, channels, sumOutputFrames + k, ratio, sumInputFrames)
      requires k * channels + channels == (k + 1) * channels <= |before|
      requires Written(frames, channels, k, before, out[..])
      modifies out
      ensures Written(frames, channels, k + 1, before, out[..])
    {
      AppendRow(frames, channels, k, before, out[..]);
      ProcessFrame(sumOutputFrames + k, k, out);
    }

    /** resampler_process: `n` output frames into `out`; returns how many input frames they used up. */
    method Process(n: nat, out: array<real>) returns (used: nat)
      requires Window() && out != data && 0 <= n * channels <= out.Length
      requires ReadOk(stream, channels, sumOutputFrames, n, ratio)
      requires sumInputFrames == SumInput(sumOutputFrames, ratio)
      modifies out
      ensures used == SumInput(sumOutputFrames + n, ratio) - sumInputFrames
      ensures out[..] == Flatten(ReadOut(stream, channels, sumOutputFrames, n, ratio)) + old(out[n * channels..])
    {
      ghost var before := out[..];
      ghost var frames := ReadOut(stream, channels, sumOutputFrames, n, ratio);
      FramesAreRows(stream, channels, sumOutputFrames, sumOutputFrames + n, ratio, sumInputFrames);
      assert frames[..n] == frames;
      var last := ProcessAll(n, out, frames);
      used := UsedFrames(n, last);
    }

    /** The whole input frames below the position of the last output frame. */
    method UsedFrames(n: nat, last: nat) returns (used: nat)
      requires ratio > 0.0 && sumInputFrames == SumInput(sumOutputFrames, ratio)
      requires n > 0 ==> last == sumOutputFrames + n - 1
      ensures used == SumInput(sumOutputFrames + n, ratio) - sumInputFrames
    {
      FramesUsed(sumOutputFrames, n, last, ratio);
      used := if n > 0 then TruncReal(PositionIn(last)) else 0;
    }

    /** The loop over the output frames; returns the number of the last one. */
    method ProcessAll(n: nat, out: array<real>, ghost frames: seq<seq<real>>) returns (last: nat)
      requires Window() && out != data && 0 <= n * channels <= out.Length
      requires AllUsable(stream, channels, sumOutputFrames, sumOutputFrames + n, ratio, sumInputFrames)
      requires frames == Frames(stream, channels, sumOutputFrames, sumOutputFrames + n, ratio, sumInputFrames)
      requires Rows(frames, channels)
      modifies out
      ensures Written(frames, channels, n, old(out[..]), out[..])
      ensures n > 0 ==> last == sumOutputFrames + n - 1
    {
      var x, posOut := sumOutputFrames, 0;
      last := 0;
      ghost var before := out[..];
      assert before[0 * channels..] == before;
      while x < sumOutputFrames + n
        invariant x == sumOutputFrames + posOut && posOut <= n
        invariant posOut > 0 ==> last == x - 1
        invariant Written(frames, channels, posOut, before, out[..])
      {
        RowsFit(posOut, n, channels);
        FrameAt(stream, channels, sumOutputFrames, sumOutputFrames + n, ratio, sumInputFrames, x);
        NextFrame(posOut, out, before, frames);
        last := x;
        x, posOut := x + 1, posOut + 1;
      }
    }

    /**
     The callback loop of resampler_cb_read: the fewest blocks that make up `must` frames, or nothing when those before
     the first empty one do not.
     */
    method Fetch(must: nat)
      returns (ok: bool, temp: array<real>, rest: seq<real>, got: nat, ghost pulled: seq<real>, ghost taken: nat)
      requires must > 0 && source.Valid() && source.channels == channels
      modifies source
      ensures source.Valid() && fresh(temp) && source.given == old(source.given) + pulled
      ensures ok ==> must <= got < must + source.limit && |pulled| == got * channels
      ensures ok ==> temp[..] + rest == pulled
      ensures ok ==> Fewest(old(source.blocks), channels, must, taken)
      ensures ok ==> source.blocks == old(source.blocks)[taken..]
      ensures ok ==> got == FrameSum(old(source.blocks), channels, taken)
      ensures !ok ==> RunsDry(old(source.blocks), channels, must)
      ensures !ok ==> Exhausted(old(source.blocks), channels, taken, source.blocks)
      ensures taken <= |old(source.blocks)| && pulled == Joined(old(source.blocks), taken)
    {
      ghost var blocks := source.blocks;
      temp, got, pulled := new real[must * channels], 0, [];
      rest, taken := [], 0;
      while got < must
        invariant source.Valid() && source.given == old(source.given) + pulled
        invariant got < must + source.limit || got == 0
        invariant |pulled| == got * channels
        invariant got <= must ==> |pulled| <= temp.Length && temp[..|pulled|] == pulled
        invariant got >= must ==> temp[..] + rest == pulled
        invariant Pulling(blocks, channels, must, taken, got, pulled) && source.blocks == blocks[taken..]
        decreases must - got
      {
        var ret;
        ghost var block;
        ret, rest, block := PullInto(temp, got, must, pulled);
        if ret == 0 {
          PullNone(blocks, channels, must, taken, got, pulled);
          assert pulled + block == pulled;
          return false, temp, [], 0, pulled, taken;
        }
        PullOne(blocks, channels, must, taken, got, pulled);
        pulled := pulled + block;
        got, taken := got + ret, taken + 1;
      }
      ok := true;
    }

    /** One call of the callback; its block goes to `temp` as far as that reaches, then to `rest`. */
    method PullInto(temp: array<real>, got: nat, must: nat, ghost pulled: seq<real>)
      returns (ret: nat, rest: seq<real>, ghost block: seq<real>)
      requires source.Valid() && source.channels == channels
      requires got < must && temp.Length == must * channels
      requires |pulled| == got * channels && |pulled| <= temp.Length && temp[..|pulled|] == pulled
      modifies source, temp
      ensures source.Valid() && source.given == old(source.given) + block
      ensures ret <= source.limit && |pulled + block| == (got + ret) * channels
      ensures got + ret <= must ==> |pulled + block| <= temp.Length && temp[..|pulled + block|] == pulled + block
      ensures got + ret >= must ==> temp[..] + rest == pulled + block
      ensures old(source.blocks) == [] ==> ret == 0
      ensures old(source.blocks) == [] ==> source.blocks == []
      ensures old(source.blocks) != [] ==>
                && block == old(source.blocks)[0] && source.blocks == old(source.blocks)[1..]
                && ret == FrameCount(block, channels)
    {
      var ptr;
      ptr, ret := source.Pull();
      block := ptr;
      var copySize := Min(ret, must - got);
      var samples := copySize * channels;
      FetchSizes(got, ret, must, copySize, channels);
      FetchStep(temp[..], pulled, ptr, samples);
      CopySeq(temp, got * channels, ptr[..samples]);
      rest := ptr[samples..];
    }

    /** Appends fetched samples to the buffer, reallocating it when it is too small. */
    method Append(temp: array<real>, rest: seq<real>, ghost pulled: seq<real>, ghost got: nat)
      requires Window() && temp != data
      requires temp[..] + rest == pulled && |pulled| == got * channels
      modifies this`data, this`dataPtr, this`frames, this`stream, data
      ensures Window() && (data == old(data) || fresh(data))
      ensures frames == old(frames) + got && stream == old(stream) + pulled
    {
      var needed := dataPtr + temp.Length + |rest|;
      if needed > data.Length {
        data := Grow(data, dataPtr, needed);
      }
      StoreBoth(data, dataPtr, temp, rest);
      dataPtr := needed;
      stream := stream + pulled;
      frames := frames + got;
      AddFrames(frames - got, got, channels);
    }

    /** How many frames a read of `n` frames needs beyond those buffered. */
    ghost function Missing(n: nat): int
      reads this
      requires ratio > 0.0
    {
      Needed(sumOutputFrames + n, ratio) - sumInputFrames - frames
    }

    /**
     What a read takes from the callback. It fails exactly when the blocks before the first empty one do not make up for
     the missing frames, and has then used them and the empty one up; otherwise it takes as few blocks as will do.
     */
    ghost predicate FromBlocks(ok: bool, blocks: seq<seq<real>>, missing: int, pulled: seq<real>, taken: nat,
                               rest: seq<seq<real>>)
      requires channels >= 1
    {
      && (ok <==> !RunsDry(blocks, channels, missing))
      && (if ok then Fewest(blocks, channels, missing, taken) && rest == blocks[taken..]
          else Exhausted(blocks, channels, taken, rest))
      && pulled == Joined(blocks, taken)
    }

    /** The frames buffered once a read of `n` frames has refilled; None when the callback runs dry. */
    ghost function Refilled(n: nat): Option<nat>
      reads this, source
      requires ratio > 0.0 && channels >= 1
    {
      Filled(frames, source.blocks, channels, Needed(sumOutputFrames + n, ratio) - sumInputFrames)
    }

    /** The condition under which a read runs dry or stays inside the buffered frames. */
    ghost predicate Serves(n: nat)
      reads this, source
      requires ratio > 0.0 && channels >= 1
    {
      Refilled(n).None? || n == 0 || SafeRead(sumOutputFrames, n, ratio) || Refilled(n).value >= 3
    }

    /** It is exact: the refill fails, or every frame the stencils use is buffered after it. */
    lemma ServesIff(n: nat)
      requires Valid()
      ensures Serves(n) <==> StaysInside(frames, source.blocks, channels, sumOutputFrames, n, ratio)
    {
      InsideWhen(frames, source.blocks, channels, sumOutputFrames, n, ratio);
    }

    /** Makes sure the buffer covers a read of `n` frames; false when the callback runs dry. */
    method Refill(n: nat) returns (ok: bool, ghost pulled: seq<real>, ghost taken: nat)
      requires Window() && sumInputFrames == SumInput(sumOutputFrames, ratio)
      modifies this`data, this`dataPtr, this`frames, this`stream, data, source
      ensures Window() && (data == old(data) || fresh(data))
      ensures source.given == old(source.given) + pulled
      ensures ok ==> stream == old(stream) + pulled
      ensures ok ==> sumInputFrames + frames >= Needed(sumOutputFrames + n, ratio)
      ensures ok ==>
                frames == old(frames) || sumInputFrames + frames < Needed(sumOutputFrames + n, ratio) + source.limit
      ensures !ok ==> stream == old(stream) && frames == old(frames) && data == old(data)
      ensures FromBlocks(ok, old(source.blocks), old(Missing(n)), pulled, taken, source.blocks)
      ensures ok ==> frames == old(frames) + FrameSum(old(source.blocks), channels, taken)
      ensures old(Refilled(n)) == if ok then Some(frames) else None
    {
      pulled, taken := [], 0;
      var required := RequiredFrames(n);
      DivModUnique(dataPtr, frames, 0, channels);
      if dataPtr / channels < required {
        var temp, rest, got;
        ok, temp, rest, got, pulled, taken := Fetch(required - dataPtr / channels);
        SuppliedFrom(old(source.blocks), channels, required - frames, 0, taken);
        if !ok {
          return;
        }
        Append(temp, rest, pulled, got);
      }
      ok := true;
    }

    /** Drops the first `used` frames of the buffer. */
    method Drop(used: nat)
      requires Window() && used <= frames
      modifies this`dataPtr, this`sumInputFrames, this`frames, data
      ensures Window() && sumInputFrames == old(sumInputFrames) + used && frames == old(frames) - used
    {
      DropSizes(sumInputFrames, used, frames, channels);
      var samples := used * channels;
      SlideWindow(stream, data[..], sumInputFrames * channels, dataPtr, samples);
      MoveToFront(data, samples, dataPtr - samples);
      sumInputFrames := sumInputFrames + used;
      dataPtr := dataPtr - samples;
      frames := frames - used;
    }

    /** The second half of resampler_cb_read: process, slide the window, count. */
    method Deliver(n: nat, out: array<real>)
      requires Window() && out != data && 0 <= n * channels <= out.Length
      requires ReadOk(stream, channels, sumOutputFrames, n, ratio)
      requires sumInputFrames == SumInput(sumOutputFrames, ratio)
      requires sumInputFrames <= SumInput(sumOutputFrames + n, ratio) <= sumInputFrames + frames
      modifies this`dataPtr, this`sumInputFrames, this`sumOutputFrames, this`frames, data, out
      ensures Window() && sumOutputFrames == old(sumOutputFrames) + n
      ensures sumInputFrames == SumInput(sumOutputFrames, ratio)
      ensures sumInputFrames + frames == old(sumInputFrames + frames)
      ensures out[..] == old(Flatten(ReadOut(stream, channels, sumOutputFrames, n, ratio)) + out[n * channels..])
    {
      var used := Process(n, out);
      Drop(used);
      sumOutputFrames := sumOutputFrames + n;
    }

    /**
     resampler_cb_read. -1: the callback ran dry, and nothing but the callback has moved. Otherwise the
     output is the next `n` frames of the session, and the input counters have not drifted.
     */
    method CbRead(n: nat, out: array<real>)
      returns (r: int, ghost pulled: seq<real>, ghost next: seq<seq<real>>, ghost taken: nat)
      requires Valid() && out != data && 0 <= n * channels <= out.Length
      requires Serves(n)
      modifies this, data, source, out
      ensures Valid() && (data == old(data) || fresh(data))
      ensures source.given == old(source.given) + pulled
      ensures r == -1 || r == n
      ensures FromBlocks(r == n, old(source.blocks), old(Missing(n)), pulled, taken, source.blocks)
      ensures r == n ==> sumInputFrames + frames
                         == old(sumInputFrames + frames) + FrameSum(old(source.blocks), channels, taken)
      ensures r == if old(Refilled(n)).None? then -1 else n
      ensures r == -1 ==> stream == old(stream) && counts == old(counts) && out[..] == old(out[..])
      ensures r == n ==> counts == old(counts) + [n] && stream == old(stream) + pulled
      ensures r == n ==> output == old(output) + next && |next| == n
      ensures r == n ==> out[..] == Flatten(next) + old(out[n * channels..])
    {
      r, next := -1, [];
      var ok;
      ok, pulled, taken := Prepare(n);
      if ok {
        next := Complete(n, out);
        r := n;
      }
    }

    /** The buffer holds what a read of `n` frames needs, and not too much more. */
    ghost predicate Primed(n: nat)
      reads this, source, data
    {
      && Window()
      && sumOutputFrames == Total(counts) && sumInputFrames == SumInput(sumOutputFrames, ratio)
      && Continues(stream, channels, counts, n, ratio, output)
      && sumInputFrames <= SumInput(sumOutputFrames + n, ratio) <= sumInputFrames + frames
      && sumInputFrames + frames <= SumInput(sumOutputFrames + n, ratio) + Capacity()
    }

    /** The first half of resampler_cb_read: refill, or give up with nothing changed but the callback. */
    method Prepare(n: nat) returns (ok: bool, ghost pulled: seq<real>, ghost taken: nat)
      requires Valid() && Serves(n)
      modifies this`data, this`dataPtr, this`frames, this`stream, data, source
      ensures data == old(data) || fresh(data)
      ensures source.given == old(source.given) + pulled
      ensures ok <==> old(Refilled(n)).Some?
      ensures FromBlocks(ok, old(source.blocks), old(Missing(n)), pulled, taken, source.blocks)
      ensures ok ==> frames == old(frames) + FrameSum(old(source.blocks), channels, taken)
      ensures if ok then Primed(n) && stream == old(stream) + pulled else Valid() && stream == old(stream)
    {
      ghost var stream0, frames0 := stream, frames;
      ok, pulled, taken := Refill(n);
      if ok {
        ReadAhead(stream0, pulled, channels, counts, n, ratio, frames);
        BufferBound(sumOutputFrames, n, ratio, frames0, frames, source.limit);
      }
    }

    /** Delivers a read and records it in the session. */
    method Complete(n: nat, out: array<real>) returns (ghost next: seq<seq<real>>)
      requires Primed(n) && out != data && 0 <= n * channels <= out.Length
      modifies this, data, out
      ensures Valid() && data == old(data) && stream == old(stream)
      ensures sumInputFrames + frames == old(sumInputFrames + frames)
      ensures counts == old(counts) + [n] && output == old(output) + next && |next| == n
      ensures out[..] == Flatten(next) + old(out[n * channels..])
    {
      next := ReadOut(stream, channels, sumOutputFrames, n, ratio);
      Deliver(n, out);
      counts, output := counts + [n], output + next;
    }

    /** Where output frame `x` falls in the buffer. */
    function PositionIn(x: nat): real
      reads this
      requires ratio > 0.0
    {
      Position(x, ratio) - sumInputFrames as real
    }
  }

  lemma SlideWindow(stream: seq<real>, data: seq<real>, base: nat, len: nat, k: nat)
    requires k <= len <= |data| && |stream| == base + len && data[..len] == stream[base..]
    ensures Splice(data, 0, data[k..k + (len - k)])[..len - k] == stream[base + k..]
  {
    assert data[k..len] == data[..len][k..];
  }

  lemma DropSizes(sum: nat, used: nat, frames: nat, ch: nat)
    requires used <= frames
    ensures (sum + used) * ch == sum * ch + used * ch
    ensures used * ch <= frames * ch && (frames - used) * ch == frames * ch - used * ch
  {
    assert (frames - used) * ch >= 0;
  }

  lemma FetchStep(temp: seq<real>, pulled: seq<real>, last: seq<real>, n: nat)
    requires n <= |last| && |pulled| + n <= |temp| && temp[..|pulled|] == pulled
    ensures Splice(temp, |pulled|, last[..n])[..|pulled| + n] == pulled + last[..n]
    ensures pulled + last[..n] + last[n..] == pulled + last
    ensures n == |last| ==> pulled + last[..n] == pulled + last
  {
    assert last == last[..n] + last[n..];
  }

  lemma FetchSizes(got: nat, ret: nat, must: nat, copySize: nat, ch: nat)
    requires got < must && copySize == Min(ret, must - got)
    ensures 0 <= copySize * ch <= ret * ch && got * ch + copySize * ch <= must * ch
    ensures (got + ret) * ch == got * ch + ret * ch
    ensures got + ret >= must ==> got * ch + copySize * ch == must * ch
    ensures got + ret <= must ==> copySize == ret
  {
    assert copySize * ch >= 0 && (ret - copySize) * ch >= 0 && (must - got - copySize) * ch >= 0;
    assert (ret - copySize) * ch == ret * ch - copySize * ch;
    assert (must - got - copySize) * ch == must * ch - got * ch - copySize * ch;
  }

  lemma NextReadOk(stream: seq<real>, ch: nat, start: nat, n: nat, ratio: real, frames: nat)
    requires ratio > 0.0 && (n == 0 || SafeRead(start, n, ratio) || frames >= 3)
    requires |stream| == SumInput(start, ratio) * ch + frames * ch
    requires Needed(start + n, ratio) <= SumInput(start, ratio) + frames
    ensures ReadOk(stream, ch, start, n, ratio)
  {
    AddFrames(SumInput(start, ratio), frames, ch);
    InsideReadOk(stream, ch, start, n, ratio, frames);
  }

  /** A session goes on over a longer stream with one more read. */
  lemma SessionNext(stream: seq<real>, more: seq<real>, ch: nat, counts: seq<nat>, n: nat, ratio: real)
    requires ratio > 0.0 && SessionOk(stream, ch, counts, ratio)
    requires ReadOk(stream + more, ch, Total(counts), n, ratio)
    ensures Total(counts + [n]) == Total(counts) + n
    ensures SessionOk(stream + more, ch, counts + [n], ratio)
    ensures Session(stream + more, ch, counts + [n], ratio)
            == Session(stream, ch, counts, ratio) + ReadOut(stream + more, ch, Total(counts), n, ratio)
  {
    SessionExtend(stream, more, ch, counts, ratio);
    var all := counts + [n];
    assert all[..|all| - 1] == counts && all[|all| - 1] == n;
  }

  /** One more read of `n` frames continues the session whose output so far is `output`. */
  ghost predicate Continues(stream: seq<real>, ch: nat, counts: seq<nat>, n: nat, ratio: real, output: seq<seq<real>>)
    requires ratio > 0.0
  {
    && ReadOk(stream, ch, Total(counts), n, ratio)
    && Total(counts + [n]) == Total(counts) + n
    && SessionOk(stream, ch, counts + [n], ratio)
    && Session(stream, ch, counts + [n], ratio) == output + ReadOut(stream, ch, Total(counts), n, ratio)
  }

  /** Once filled, the buffer serves one more read of the session. */
  lemma ReadAhead(stream: seq<real>, more: seq<real>, ch: nat, counts: seq<nat>, n: nat, ratio: real, after: nat)
    requires ratio > 0.0 && SessionOk(stream, ch, counts, ratio)
    requires n == 0 || SafeRead(Total(counts), n, ratio) || after >= 3
    requires |stream + more| == SumInput(Total(counts), ratio) * ch + after * ch
    requires Needed(Total(counts) + n, ratio) <= SumInput(Total(counts), ratio) + after
    ensures Continues(stream + more, ch, counts, n, ratio, Session(stream, ch, counts, ratio))
  {
    NextReadOk(stream + more, ch, Total(counts), n, ratio, after);
    SessionNext(stream, more, ch, counts, n, ratio);
  }

  /** Bounded memory: what a read leaves in the buffer. */
  lemma BufferBound(start: nat, n: nat, ratio: real, before: nat, after: nat, limit: nat)
    requires ratio > 0.0 && before <= limit + 1 + Ceil(1.0 / ratio)
    requires Needed(start + n, ratio) <= SumInput(start, ratio) + after
    requires after == before || SumInput(start, ratio) + after < Needed(start + n, ratio) + limit
    ensures var used := SumInput(start + n, ratio) - SumInput(start, ratio);
            0 <= used <= after && after - used <= limit + 1 + Ceil(1.0 / ratio)
  {
    var end := start + n;
    NeededIs(end, ratio);
    SumInputMonotone(start, end, ratio);
    CeilNotNegative(1.0 / ratio);
    if end > 0 {
      PositionStep(end - 1, ratio);
    }
  }

  lemma AddFrames(a: nat, b: nat, ch: nat)
    ensures (a + b) * ch == a * ch + b * ch
  {
  }

  /** realloc: a larger array with the first `used` samples kept. */
  method Grow(data: array<real>, used: nat, needed: nat) returns (grown: array<real>)
    requires used <= data.Length <= needed
    ensures fresh(grown) && grown.Length == needed && grown[..used] == data[..used]
  {
    grown := new real[needed](_ => 0.0);
    CopyInto(grown, 0, data, 0, used);
    assert data[0..used] == data[..used];
  }

  method StoreBoth(data: array<real>, at: nat, temp: array<real>, rest: seq<real>)
    requires data != temp && at + temp.Length + |rest| <= data.Length
    modifies data
    ensures data[..at + temp.Length + |rest|] == old(data[..at]) + temp[..] + rest
  {
    CopyInto(data, at, temp, 0, temp.Length);
    assert temp[0..temp.Length] == temp[..];
    assert data[..at + temp.Length] == old(data[..at]) + temp[..];
    if |rest| > 0 {
      CopySeq(data, at + temp.Length, rest);
    }
  }

  ghost predicate Rows(frames: seq<seq<real>>, ch: nat) {
    forall i :: 0 <= i < |frames| ==> |frames[i]| == ch
  }

  /** `now` is `before` with the first `k` frames written over it. */
  ghost predicate Written(frames: seq<seq<real>>, ch: nat, k: nat, before: seq<real>, now: seq<real>) {
    k <= |frames| && k * ch <= |before| && now == Flatten(frames[..k]) + before[k * ch..]
  }

  /** The frames a read has used up, from the position of its last output frame. */
  lemma FramesUsed(start: nat, n: nat, last: nat, ratio: real)
    requires ratio > 0.0 && (n > 0 ==> last == start + n - 1)
    ensures SumInput(start, ratio) <= SumInput(start + n, ratio)
    ensures n > 0 ==> TruncReal(Position(last, ratio) - SumInput(start, ratio) as real)
                      == SumInput(start + n, ratio) - SumInput(start, ratio)
  {
    if n > 0 {
      WindowNotAhead(start, last, ratio);
    }
  }

  /** Interleaved frames, in order. */
  ghost function Flatten(frames: seq<seq<real>>): (s: seq<real>) {
    if frames == [] then [] else Flatten(frames[..|frames| - 1]) + frames[|frames| - 1]
  }

  lemma {:induction false} FramesAreRows(stream: seq<real>, ch: nat, lo: nat, hi: nat, ratio: real, base: nat)
    requires ratio > 0.0 && lo <= hi && AllUsable(stream, ch, lo, hi, ratio, base)
    ensures Rows(Frames(stream, ch, lo, hi, ratio, base), ch)
    decreases hi
  {
    if lo < hi {
      FramesAreRows(stream, ch, lo, hi - 1, ratio, base);
    }
  }

  lemma {:induction false} FlattenLength(frames: seq<seq<real>>, ch: nat)
    requires Rows(frames, ch)
    ensures |Flatten(frames)| == |frames| * ch
  {
    if frames != [] {
      FlattenLength(frames[..|frames| - 1], ch);
      RowsFit(|frames| - 1, |frames|, ch);
    }
  }

  /** Writing frame `k` after its predecessors extends the output by that frame. */
  lemma AppendRow(frames: seq<seq<real>>, ch: nat, k: nat, before: seq<real>, now: seq<real>)
    requires Rows(frames, ch) && k < |frames| && Written(frames, ch, k, before, now)
    requires k * ch + ch == (k + 1) * ch <= |before|
    ensures |now| == |before|
    ensures Written(frames, ch, k + 1, before, Splice(now, k * ch, frames[k]))
  {
    FlattenLength(frames[..k], ch);
    assert frames[..k + 1][..k] == frames[..k];
    SpliceNext(Flatten(frames[..k]), frames[k], before, k * ch);
  }

  /** The first `c` samples of `frame` written over `before` at `at`. */
  ghost predicate PartWritten(before: seq<real>, frame: seq<real>, at: nat, c: nat, now: seq<real>) {
    at + |frame| <= |before| && c <= |frame| && now == Splice(before, at, frame[..c])
  }

  lemma PartStep(before: seq<real>, frame: seq<real>, at: nat, c: nat, now: seq<real>)
    requires PartWritten(before, frame, at, c, now) && c < |frame|
    ensures PartWritten(before, frame, at, c + 1, now[at + c := frame[c]])
  {
  }

  lemma SpliceNext(flat: seq<real>, frame: seq<real>, o: seq<real>, at: nat)
    requires |flat| == at && at + |frame| <= |o|
    ensures Splice(flat + o[at..], at, frame) == flat + frame + o[at + |frame|..]
  {
  }

  lemma RowsFit(i: nat, n: nat, ch: nat)
    requires i < n
    ensures i * ch + ch == (i + 1) * ch <= n * ch
  {
    var rest := n - (i + 1);
    assert rest * ch >= 0;
    assert n * ch == (i + 1) * ch + rest * ch;
  }

  /** A buffered sample is the stream sample `base` frames further on. */
  lemma BufferedSample(stream: seq<real>, buf: seq<real>, ch: nat, base: nat, i: nat, c: nat)
    requires base * ch <= |stream| && buf == stream[base * ch..]
    requires c < ch && Covers(stream, ch, base + i + 1)
    ensures Index(i, ch, c) < |buf| && buf[Index(i, ch, c)] == Sample(stream, ch, base + i, c)
  {
    IndexInside(base + i, ch, c, base + i + 1);
    assert (base + i) * ch == base * ch + i * ch;
  }

  lemma CeilNotNegative(x: real)
    requires x > 0.0
    ensures Ceil(x) >= 0
  {
  }

  lemma SumInputMonotone(a: nat, b: nat, ratio: real)
    requires ratio > 0.0 && a <= b
    ensures SumInput(a, ratio) <= SumInput(b, ratio)
  {
    if 0 < a {
      PositionMonotone(a - 1, b - 1, ratio);
    }
  }
}
