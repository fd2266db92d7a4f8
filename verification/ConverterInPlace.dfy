/**
 audio_converter in the form of the C code: loops over one scratch buffer, widening backward and narrowing
 forward.
 */
module ConverterInPlace {
  import opened Bytes
  import opened Formats
  import opened Converter
  import opened ConverterCorrect
  import opened ConverterScratch
  import opened ConverterTheorems

  /** The sample function on one sample, as the loops call it. */
  function Converted(f: Sampler, w: nat, m: nat, b: seq<Byte>): (r: seq<Byte>)
    requires Sizes(f, w, m) && |b| == w
    ensures |r| == m
  {
    f(b)
  }

  // ----- the loops -----

  /** A forward loop has read `at` bytes of `s` and written `out`; ahead of it the buffer is as it was. */
  ghost predicate Forward(w: nat, s: seq<Byte>, f: Sampler, bytes: nat, at: nat, out: nat, cur: seq<Byte>) {
    && out <= at <= bytes <= |s| == |cur|
    && cur[at..] == s[at..]
    && cur[..out] + Map(w, s[at..bytes], f) == Map(w, s[..bytes], f)
  }

  lemma ForwardStep(w: nat, m: nat, s: seq<Byte>, f: Sampler, bytes: nat, at: nat, out: nat, cur: seq<Byte>)
    requires 0 < w && m <= w && Sizes(f, w, m)
    requires Forward(w, s, f, bytes, at, out, cur) && at + w <= bytes
    ensures Forward(w, s, f, bytes, at + w, out + m, Splice(cur, out, Converted(f, w, m, cur[at..at + w])))
  {
    var b, rest := cur[at..at + w], s[at + w..bytes];
    assert b == cur[at..][..w] == s[at..][..w] == s[at..at + w];
    assert s[at..bytes][..w] == b && s[at..bytes][w..] == rest;
    var r := Converted(f, w, m, b);
    var next := Splice(cur, out, r);
    assert next[..out + m] == cur[..out] + r;
    assert next[at + w..] == cur[at..][w..] == s[at..][w..] == s[at + w..];
    assert (cur[..out] + r) + Map(w, rest, f) == cur[..out] + (r + Map(w, rest, f));
  }

  lemma ForwardStart(w: nat, s: seq<Byte>, f: Sampler, bytes: nat)
    requires bytes <= |s|
    ensures Forward(w, s, f, bytes, 0, 0, s)
  {
    assert s[0..bytes] == s[..bytes];
  }

  /** Less than a sample is left, and stays. */
  lemma ForwardDone(w: nat, s: seq<Byte>, f: Sampler, bytes: nat, at: nat, out: nat, cur: seq<Byte>)
    requires 0 < w && Forward(w, s, f, bytes, at, out, cur) && bytes < at + w
    ensures at == bytes ==> cur[..out] == Map(w, s[..bytes], f)
    ensures at == out ==> cur[..bytes] == Map(w, s[..bytes], f)
  {
    assert cur[at..bytes] == cur[at..][..bytes - at] == s[at..][..bytes - at] == s[at..bytes];
    assert at == out ==> cur[..out] + cur[at..bytes] == cur[..bytes];
  }

  /**
   A backward loop has the first `at` bytes of `s` still to read; from `out` on the buffer holds the results of those
   behind them, then the rest of it from `end`.
   */
  ghost predicate Backward(w: nat, s: seq<Byte>, f: Sampler, bytes: nat, end: nat, at: nat, out: nat, cur: seq<Byte>) {
    && at <= out <= end && at <= bytes <= end <= |s| == |cur|
    && cur[..at] == s[..at]
    && cur[out..] == Map(w, s[at..bytes], f) + s[end..]
  }

  lemma BackwardStep(
      w: nat, m: nat, s: seq<Byte>, f: Sampler, bytes: nat, end: nat, at: nat, out: nat, cur: seq<Byte>)
    requires 0 < w <= at && m <= out && at - w <= out - m && Sizes(f, w, m)
    requires Backward(w, s, f, bytes, end, at, out, cur)
    ensures Backward(w, s, f, bytes, end, at - w, out - m, Splice(cur, out - m, Converted(f, w, m, cur[at - w..at])))
  {
    var b, rest := cur[at - w..at], s[at..bytes];
    assert b == cur[..at][at - w..] == s[..at][at - w..] == s[at - w..at];
    assert s[at - w..bytes][..w] == b && s[at - w..bytes][w..] == rest;
    var r := Converted(f, w, m, b);
    var next := Splice(cur, out - m, r);
    assert next[out - m..] == r + cur[out..];
    assert next[..at - w] == cur[..at][..at - w] == s[..at - w];
    assert r + (Map(w, rest, f) + s[end..]) == (r + Map(w, rest, f)) + s[end..];
  }

  /** One turn of a forward loop: the sample at `at` is read, its result written at `out`. */
  method Rewrite(a: array<Byte>, w: nat, m: nat, f: Sampler, at: nat, out: nat, ghost s: seq<Byte>, ghost bytes: nat)
    requires 0 < w && m <= w && Sizes(f, w, m)
    requires Forward(w, s, f, bytes, at, out, a[..]) && at + w <= bytes
    modifies a
    ensures Forward(w, s, f, bytes, at + w, out + m, a[..])
  {
    ForwardStep(w, m, s, f, bytes, at, out, a[..]);
    var b := a[at..at + w];
    assert b == a[..][at..at + w];
    CopySeq(a, out, Converted(f, w, m, b));
  }

  /** swap_bytes16, swap_bytes32 and the sign-flip loops: every sample is rewritten where it is. */
  method EachInPlace(a: array<Byte>, w: nat, bytes: nat, f: Sampler) returns (ghost e: Extent)
    requires SampleSize(w) && bytes <= a.Length && Sizes(f, w, w)
    modifies a
    ensures a[..bytes] == Map(w, old(a[..bytes]), f)
    ensures e == EachExtent(w, bytes)
  {
    ghost var s := a[..];
    ForwardStart(w, s, f, bytes);
    var at;
    at, e := RewriteAll(a, w, bytes, f, s);
    ForwardDone(w, s, f, bytes, at, at, a[..]);
    assert a[..bytes] == a[..][..bytes];
  }

  /** The same where results are as wide as samples: reading and writing move on together. */
  method RewriteNext(a: array<Byte>, w: nat, f: Sampler, at: nat, ghost s: seq<Byte>, ghost bytes: nat)
    returns (next: nat)
    requires 0 < w && Sizes(f, w, w) && Forward(w, s, f, bytes, at, at, a[..]) && at + w <= bytes
    modifies a
    ensures next == at + w && Forward(w, s, f, bytes, next, next, a[..])
  {
    Rewrite(a, w, w, f, at, at, s, bytes);
    next := at + w;
  }

  method RewriteAll(a: array<Byte>, w: nat, bytes: nat, f: Sampler, ghost s: seq<Byte>)
    returns (at: nat, ghost e: Extent)
    requires SampleSize(w) && Sizes(f, w, w) && Forward(w, s, f, bytes, 0, 0, a[..])
    modifies a
    ensures bytes < at + w && Forward(w, s, f, bytes, at, at, a[..])
    ensures e == EachExtent(w, bytes)
  {
    at, e := 0, UNTOUCHED;
    ghost var turns: nat := 0;
    while at + w <= bytes
      invariant at <= bytes && at == Strides(turns, w) && e == Extent(at, at)
      invariant Forward(w, s, f, bytes, at, at, a[..])
    {
      at := RewriteNext(a, w, f, at, s, bytes);
      e, turns := Cover(e, Extent(at, at)), turns + 1;
    }
    TurnsCover(turns, at, w, bytes);
  }

  function Strides(turns: nat, w: nat): nat { if turns == 0 then 0 else Strides(turns - 1, w) + w }

  /** The turns taken end where the whole samples do. */
  lemma TurnsCover(turns: nat, at: nat, w: nat, bytes: nat)
    requires SampleSize(w) && at == Strides(turns, w) && at <= bytes < at + w
    ensures Whole(w, bytes) == at
  {
    StridesMultiply(turns, w);
    DivModUnique(bytes, turns, bytes - at, w);
  }

  lemma {:induction false} StridesMultiply(turns: nat, w: nat)
    ensures Strides(turns, w) == turns * w
  {
    if turns > 0 {
      StridesMultiply(turns - 1, w);
      assert turns * w == (turns - 1) * w + w;
    }
  }

  /**
   The loops that run from the last sample down, so that nothing is overwritten before it is read: alaw_to_s16,
   mulaw_to_s16, s8_to_s16 and s16_to_float double the samples, s32_to_float rewrites them where they are.
   */
  method BackwardInPlace(a: array<Byte>, w: nat, double: bool, bytes: nat, f: Sampler) returns (ghost e: Extent)
    requires SampleSize(w) && bytes % w == 0
    requires Doubled(double, bytes) <= a.Length && Sizes(f, w, Doubled(double, w))
    modifies a
    ensures a[..] == Map(w, old(a[..bytes]), f) + old(a[Doubled(double, bytes)..])
    ensures e == Extent(bytes, Doubled(double, bytes))
  {
    ghost var s := a[..];
    var at := bytes;
    e := UNTOUCHED;
    assert s[bytes..bytes] == [];
    while at > 0
      invariant 0 <= at <= bytes && at % w == 0
      invariant e == if at == bytes then UNTOUCHED else Extent(bytes, Doubled(double, bytes))
      invariant Backing(a, w, double, bytes, at, f, s)
    {
      SampleDown(at, w);
      OneBack(a, w, double, bytes, at, f, s);
      e := Cover(e, Extent(at, Doubled(double, at)));
      at := at - w;
    }
    BackwardDone(w, s, f, bytes, Doubled(double, bytes), a[..]);
  }

  lemma SampleDown(at: nat, w: nat)
    requires SampleSize(w) && at > 0 && at % w == 0
    ensures w <= at && (at - w) % w == 0
  {
  }

  lemma BackwardDone(w: nat, s: seq<Byte>, f: Sampler, bytes: nat, end: nat, cur: seq<Byte>)
    requires Backward(w, s, f, bytes, end, 0, 0, cur)
    ensures cur == Map(w, s[..bytes], f) + s[end..]
  {
    assert cur == cur[0..] && s[0..bytes] == s[..bytes];
  }

  function Doubled(double: bool, n: nat): nat { if double then 2 * n else n }

  ghost predicate Backing(a: array<Byte>, w: nat, double: bool, bytes: nat, at: nat, f: Sampler, s: seq<Byte>)
    reads a
  {
    Backward(w, s, f, bytes, Doubled(double, bytes), at, Doubled(double, at), a[..])
  }

  method OneBack(a: array<Byte>, w: nat, double: bool, ghost bytes: nat, at: nat, f: Sampler, ghost s: seq<Byte>)
    requires 0 < w <= at && Sizes(f, w, Doubled(double, w))
    requires Backing(a, w, double, bytes, at, f, s)
    modifies a
    ensures Backing(a, w, double, bytes, at - w, f, s)
  {
    ghost var end, out, before := Doubled(double, bytes), Doubled(double, at), a[..];
    var m, target := Doubled(double, w), Doubled(double, at - w);
    BackwardStep(w, m, s, f, bytes, end, at, out, before);
    var b := a[at - w..at];
    assert b == before[at - w..at];
    CopySeq(a, target, Converted(f, w, m, b));
  }

  /** The loops that widen one-byte samples. */
  method WidenInPlace(a: array<Byte>, n: nat, f: Sampler) returns (ghost e: Extent)
    requires 2 * n <= a.Length && Sizes(f, 1, 2)
    modifies a
    ensures a[..] == Map(1, old(a[..n]), f) + old(a[2 * n..])
    ensures a[..2 * n] == Map(1, old(a[..n]), f)
    ensures e == Extent(n, 2 * n)
  {
    ghost var s := a[..n];
    e := BackwardInPlace(a, 1, true, n, f);
    MapLength(1, 2, s, f, n);
    assert a[..2 * n] == a[..][..2 * n];
  }

  /** `i` samples narrowed, in the array and what lies behind it. */
  ghost predicate Narrowing(a: array<Byte>, beyond: seq<Byte>, s: seq<Byte>, f: Sampler, samples: nat, i: nat)
    reads a
  {
    Forward(4, s, f, 4 * samples, 4 * i, 2 * i, a[..] + beyond)
  }

  /** One turn of s32_to_s16: the word may lie behind the end of the array, its result never does. */
  method NarrowOne(a: array<Byte>, f: Sampler, beyond: seq<Byte>, i: nat, ghost s: seq<Byte>, ghost samples: nat)
    requires Sizes(f, 4, 2) && 2 * samples <= a.Length && i < samples
    requires Narrowing(a, beyond, s, f, samples, i)
    modifies a
    ensures Narrowing(a, beyond, s, f, samples, i + 1)
  {
    ghost var before, at, out := a[..], 4 * i, 2 * i;
    ForwardStep(4, 2, s, f, 4 * samples, at, out, before + beyond);
    var r := Converted(f, 4, 2, (a[..] + beyond)[4 * i..4 * i + 4]);
    SpliceFront(before, beyond, out, r);
    CopySeq(a, 2 * i, r);
  }

  lemma SpliceFront(s: seq<Byte>, beyond: seq<Byte>, at: nat, piece: seq<Byte>)
    requires at + |piece| <= |s|
    ensures Splice(s + beyond, at, piece) == Splice(s, at, piece) + beyond
  {
  }

  /**
   s32_to_s16: from the first sample up; the result stays behind the reading position. `beyond` is what memory
   holds behind the array: the loop reads it when the count is larger than the samples there are.
   */
  method NarrowInPlace(a: array<Byte>, samples: nat, f: Sampler, beyond: seq<Byte>) returns (ghost e: Extent)
    requires 2 * samples <= a.Length && 4 * samples <= a.Length + |beyond| && Sizes(f, 4, 2)
    modifies a
    ensures a[..2 * samples] == Map(4, (old(a[..]) + beyond)[..4 * samples], f)
    ensures e == Extent(4 * samples, 2 * samples)
  {
    ghost var s := a[..] + beyond;
    ForwardStart(4, s, f, 4 * samples);
    e := NarrowAll(a, samples, f, beyond, s);
    ForwardDone(4, s, f, 4 * samples, 4 * samples, 2 * samples, a[..] + beyond);
    assert a[..2 * samples] == (a[..] + beyond)[..2 * samples];
  }

  method NarrowAll(a: array<Byte>, samples: nat, f: Sampler, beyond: seq<Byte>, ghost s: seq<Byte>)
    returns (ghost e: Extent)
    requires 2 * samples <= a.Length && Sizes(f, 4, 2)
    requires Narrowing(a, beyond, s, f, samples, 0)
    modifies a
    ensures Narrowing(a, beyond, s, f, samples, samples)
    ensures e == Extent(4 * samples, 2 * samples)
  {
    var i := 0;
    e := UNTOUCHED;
    while i < samples
      invariant i <= samples && e == Extent(4 * i, 2 * i)
      invariant Narrowing(a, beyond, s, f, samples, i)
    {
      NarrowOne(a, f, beyond, i, s, samples);
      e := Cover(e, Extent(4 * i + 4, 2 * i + 2));
      i := i + 1;
    }
  }

  method Expand(a: array<Byte>, op: Mask, le: bool, bytes: nat) returns (n: nat, ghost e: Extent)
    requires 2 * bytes <= a.Length && !(op.alawToS16 && op.mulawToS16)
    modifies a
    ensures n == if Expands(op) then 2 * bytes else bytes
    ensures a[..n] == Expanded(op, le, old(a[..bytes])) && e == ExpandExtent(op, bytes)
  {
    n, e := bytes, UNTOUCHED;
    if op.alawToS16 {
      e := WidenInPlace(a, n, AlawExpander(le));
      n := n * 2;
    } else if op.mulawToS16 {
      e := WidenInPlace(a, n, MulawExpander(le));
      n := n * 2;
    }
  }

  method SwapBytes(a: array<Byte>, w: nat, bytes: nat) returns (ghost e: Extent)
    requires SampleSize(w) && bytes <= a.Length
    modifies a
    ensures a[..bytes] == Swapped(w, old(a[..bytes])) && e == SwapExtent(w, bytes)
  {
    e := UNTOUCHED;
    if w > 1 {
      e := EachInPlace(a, w, bytes, Swap);
    }
  }

  method FlipSigns(a: array<Byte>, op: Mask, le: bool, w: nat, bytes: nat) returns (ghost e: Extent)
    requires SampleSize(w) && bytes <= a.Length
    modifies a
    ensures a[..bytes] == Flipped(op, le, w, old(a[..bytes])) && e == FlipExtent(op, w, bytes)
  {
    e := UNTOUCHED;
    if op.sToU {
      e := EachInPlace(a, w, bytes, Unsigner(le, w));
    } else if op.uToS {
      e := EachInPlace(a, w, bytes, Signer(le, w));
    }
  }

  /** The narrowing loop gets the byte count where it wants samples: it runs past them, and only the front counts. */
  method Resize(a: array<Byte>, op: Mask, le: bool, bytes: nat, beyond: seq<Byte>) returns (n: nat, ghost e: Extent)
    requires bytes <= a.Length
    requires op.s8ToS16 || op.s32ToS16 ==> 2 * bytes <= a.Length
    requires op.s32ToS16 && !op.s8ToS16 ==> 4 * bytes <= a.Length + |beyond| && bytes % 4 == 0
    modifies a
    ensures n == if op.s8ToS16 then 2 * bytes else if op.s32ToS16 then bytes / 2 else bytes
    ensures a[..n] == Resized(op, le, old(a[..bytes])) && e == ResizeExtent(op, bytes)
  {
    n, e := bytes, UNTOUCHED;
    if op.s8ToS16 {
      e := WidenInPlace(a, n, Widener(le));
      n := n * 2;
    } else if op.s32ToS16 {
      ghost var s := (a[..] + beyond)[..4 * bytes];
      e := NarrowInPlace(a, n, Narrower(le), beyond);
      FrontOfMap(s, bytes, Narrower(le));
      assert s[..bytes] == old(a[..bytes]);
      n := n / 2;
      assert a[..n] == a[..2 * bytes][..n];
    }
  }

  lemma FrontOfMap(s: seq<Byte>, bytes: nat, f: Sampler)
    requires bytes <= |s| && bytes % 4 == 0 && Sizes(f, 4, 2)
    ensures |Map(4, s[..bytes], f)| == bytes / 2 <= |Map(4, s, f)|
    ensures Map(4, s, f)[..bytes / 2] == Map(4, s[..bytes], f)
  {
    assert s == s[..bytes] + s[bytes..];
    MapLength(4, 2, s[..bytes], f, bytes / 4);
    MapSplit(4, s[..bytes], s[bytes..], f, bytes / 4);
  }

  // ----- audio_converter -----

  /** The samples once they are expanded, in host order, and their signs flipped. */
  function HostForm(f: Format, op: Mask, le: bool, s: seq<Byte>): seq<Byte> {
    var w, s1 := FormatBytes(f), Expanded(op, le, s);
    Flipped(op, le, w, if Foreign(f, op, le) then Swapped(w, s1) else s1)
  }

  /** The width and the byte order asked for. */
  function Finished(f: Format, op: Mask, le: bool, s: seq<Byte>): seq<Byte> {
    var s3 := Resized(op, le, s);
    if op.swapEndian != Foreign(f, op, le) then Swapped(FormatBytes(f), s3) else s3
  }

  /** Without any bit the stages swap there and back. */
  lemma NoBitsKeep(f: Format, le: bool, s: seq<Byte>)
    ensures Finished(f, NONE, le, HostForm(f, NONE, le, s)) == s
  {
    var w: nat :| w == FormatBytes(f);
    if w > 1 {
      var same: Sampler := b => b;
      MapFusion(w, s, Swap, Swap, same);
      MapIdentity(w, s, same);
    }
  }

  lemma StagesArePipeline(f: Format, op: Mask, le: bool, s: seq<Byte>)
    ensures Finished(f, op, le, HostForm(f, op, le, s)) == Pipeline(f, op, le, s)
  {
    if op == NONE {
      NoBitsKeep(f, le, s);
    }
  }

  method ToHostForm(buffer: array<Byte>, f: Format, op: Mask, bytes: nat, le: bool) returns (n: nat, ghost e: Extent)
    requires MaskFits(f, op) && 2 * bytes <= buffer.Length
    modifies buffer
    ensures n == ExpandedLength(op, bytes) && buffer[..n] == HostForm(f, op, le, old(buffer[..bytes]))
    ensures e == HostExtent(f, op, le, bytes)
  {
    ghost var more;
    n, e := Expand(buffer, op, le, bytes);
    if Foreign(f, op, le) {
      more := SwapBytes(buffer, FormatBytes(f), n);
      e := Cover(e, more);
    }
    more := FlipSigns(buffer, op, le, FormatBytes(f), n);
    e := Cover(e, more);
  }

  method Finish(buffer: array<Byte>, f: Format, op: Mask, bytes: nat, le: bool, beyond: seq<Byte>)
    returns (n: nat, ghost e: Extent)
    requires bytes <= buffer.Length && (op.s8ToS16 || op.s32ToS16 ==> 2 * bytes <= buffer.Length)
    requires op.s32ToS16 && !op.s8ToS16 ==> 4 * bytes <= buffer.Length + |beyond| && bytes % 4 == 0
    modifies buffer
    ensures n == if op.s8ToS16 then 2 * bytes else if op.s32ToS16 then bytes / 2 else bytes
    ensures buffer[..n] == Finished(f, op, le, old(buffer[..bytes]))
    ensures e == FinishExtent(f, op, le, bytes, n)
  {
    n, e := Resize(buffer, op, le, bytes, beyond);
    if op.swapEndian != Foreign(f, op, le) {
      ghost var more := SwapBytes(buffer, FormatBytes(f), n);
      e := Cover(e, more);
    }
  }

  /** The stages of audio_converter between its first copy and the float loops. */
  method Convert(buffer: array<Byte>, f: Format, op: Mask, bytes: nat, le: bool, beyond: seq<Byte>)
    returns (n: nat, ghost e: Extent)
    requires MaskFits(f, op) && (op.s32ToS16 ==> bytes % 4 == 0 && |beyond| >= 2 * bytes)
    requires buffer.Length == 2 * bytes
    modifies buffer
    ensures n == ResultLength(op, bytes) <= buffer.Length
    ensures buffer[..n] == Pipeline(f, op, le, old(buffer[..bytes]))
    ensures e == ConvertExtent(f, op, le, bytes)
  {
    StagesArePipeline(f, op, le, buffer[..bytes]);
    ghost var more;
    n, e := ToHostForm(buffer, f, op, bytes, le);
    n, more := Finish(buffer, f, op, n, le, beyond);
    e := Cover(e, more);
  }

  /** What the float loops make of the samples; the conversion of one sample is left open. */
  function Floated(fl: FloatOp, of16: Sampler, of32: Sampler, s: seq<Byte>): seq<Byte> {
    match fl
    case Keep => s
    case S16ToFloat => Map(2, s, of16)
    case S32ToFloat => Map(4, s, of32)
  }

  predicate WholeFloats(fl: FloatOp, bytes: nat) {
    (fl.S16ToFloat? ==> bytes % 2 == 0) && (fl.S32ToFloat? ==> bytes % 4 == 0)
  }

  /** s16_to_float, s32_to_float. */
  method ToFloat(buffer: array<Byte>, fl: FloatOp, of16: Sampler, of32: Sampler, bytes: nat)
    returns (n: nat, ghost e: Extent)
    requires Sizes(of16, 2, 4) && Sizes(of32, 4, 4) && WholeFloats(fl, bytes) && FloatLength(fl, bytes) <= buffer.Length
    modifies buffer
    ensures n == FloatLength(fl, bytes) && buffer[..n] == Floated(fl, of16, of32, old(buffer[..bytes]))
    ensures e == FloatExtent(fl, bytes)
  {
    ghost var s := buffer[..bytes];
    n, e := FloatLength(fl, bytes), UNTOUCHED;
    if fl.S16ToFloat? {
      e := BackwardInPlace(buffer, 2, true, bytes, of16);
      MapLength(2, 4, s, of16, bytes / 2);
    } else if fl.S32ToFloat? {
      e := BackwardInPlace(buffer, 4, false, bytes, of32);
      MapKeepsLength(4, s, of32);
    }
    assert buffer[..n] == buffer[..][..n];
  }

  /**
   audio_converter: the data ends up as the pipeline's result, in floats where the mask says so, and what lies behind
   the result is untouched. The scratch buffer is as large as the source's; `beyond` stands for whatever memory holds
   behind it, and the result does not depend on it. Widened samples become floats only when there are none: any others
   are written outside (ConverterScratch.ScratchInsideIff).
   */
  method AudioConverter(data: array<Byte>, f: Format, op: Mask, fl: FloatOp, of16: Sampler, of32: Sampler,
                        bytes: nat, le: bool, beyond: seq<Byte>)
    returns (len: nat, ghost e: Extent)
    requires MaskFits(f, op) && (op.s32ToS16 ==> bytes % 4 == 0 && |beyond| >= 2 * bytes)
    requires Sizes(of16, 2, 4) && Sizes(of32, 4, 4) && WholeFloats(fl, ResultLength(op, bytes))
    requires !(fl.S16ToFloat? && Widens(op)) || bytes == 0
    requires bytes <= data.Length && FloatLength(fl, ResultLength(op, bytes)) <= data.Length
    modifies data
    ensures len == FloatLength(fl, ResultLength(op, bytes))
    ensures data[..len] == Floated(fl, of16, of32, Pipeline(f, op, le, old(data[..bytes])))
    ensures data[len..] == old(data[len..])
    ensures e == ScratchExtent(f, op, fl, le, bytes)
  {
    if op == NONE && fl == Keep {
      return bytes, UNTOUCHED;
    }
    var buffer := new Byte[2 * bytes];
    CopyInto(buffer, 0, data, 0, bytes);
    assert buffer[..bytes] == data[..bytes];
    len, e := Work(buffer, f, op, fl, of16, of32, bytes, le, beyond);
    CopyBack(data, buffer, len);
    e := Cover(Cover(Extent(0, bytes), e), Extent(len, 0));
  }

  method CopyBack(data: array<Byte>, buffer: array<Byte>, len: nat)
    requires data != buffer && len <= data.Length && len <= buffer.Length
    modifies data
    ensures data[..len] == old(buffer[..len]) && data[len..] == old(data[len..])
  {
    CopyInto(data, 0, buffer, 0, len);
  }

  /** What audio_converter does between its two copies. */
  method Work(buffer: array<Byte>, f: Format, op: Mask, fl: FloatOp, of16: Sampler, of32: Sampler,
              bytes: nat, le: bool, beyond: seq<Byte>)
    returns (len: nat, ghost e: Extent)
    requires MaskFits(f, op) && (op.s32ToS16 ==> bytes % 4 == 0 && |beyond| >= 2 * bytes)
    requires Sizes(of16, 2, 4) && Sizes(of32, 4, 4) && WholeFloats(fl, ResultLength(op, bytes))
    requires buffer.Length == 2 * bytes && FloatLength(fl, ResultLength(op, bytes)) <= 2 * bytes
    modifies buffer
    ensures len == FloatLength(fl, ResultLength(op, bytes))
    ensures buffer[..len] == Floated(fl, of16, of32, Pipeline(f, op, le, old(buffer[..bytes])))
    ensures e == WorkExtent(f, op, fl, le, bytes)
  {
    ghost var more;
    len, e := Convert(buffer, f, op, bytes, le, beyond);
    len, more := ToFloat(buffer, fl, of16, of32, len);
    e := Cover(e, more);
  }

  /** What JACK gets from formats of two or four bytes: every float is the conversion of the reference sample. */
  lemma JackFloats(f: Format, op: Mask, fl: FloatOp, le: bool,
                   of16: Sampler, of32: Sampler, whole: Sampler, s: seq<Byte>)
    requires FormatBytes(f) != 1 && op == JackMask(f, le) && fl == JackFloat(f)
    requires FormatBytes(f) == 2 ==> forall b :: |b| == 2 ==> whole(b) == of16(Reference16(f, le)(b))
    requires FormatBytes(f) == 4 ==> forall b :: |b| == 4 ==> whole(b) == of32(Reference32(f, le)(b))
    ensures Floated(fl, of16, of32, Pipeline(f, op, le, s)) == Map(FormatBytes(f), s, whole)
  {
    var pcm: seq<Byte> :| pcm == Pipeline(f, op, le, s);
    if FormatBytes(f) == 2 {
      ToS16IsReference(f, le, s);
      ThenFloats(2, s, Reference16(f, le), of16, whole, pcm);
    } else {
      ToS32IsReference(f, le, s);
      ThenFloats(4, s, Reference32(f, le), of32, whole, pcm);
    }
  }

  lemma ThenFloats(w: nat, s: seq<Byte>, reference: Sampler, float: Sampler, whole: Sampler, pcm: seq<Byte>)
    requires w > 0 && Sizes(reference, w, w) && pcm == Map(w, s, reference)
    requires forall b :: |b| == w ==> whole(b) == float(reference(b))
    ensures Map(w, pcm, float) == Map(w, s, whole)
  {
    MapFusion(w, s, reference, float, whole);
  }
}
