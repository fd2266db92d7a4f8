/** The way back from resampled floats to integers: resampler_float_to_s16 and _s32 (src/resampler.c). */
module SampleClip {
  import opened Bytes
  import opened ResamplerRuns

  /** Round by adding one half and truncating, then clip; `top` is 0x7FFE for s16, 0x7FFFFFFE for s32. */
  function ToInteger(x: real, top: nat): (r: int)
    ensures -(top + 1) <= r <= top
  {
    var temp := TruncReal(x + 0.5);
    if temp > top then top else if temp < -(top + 1) then -(top + 1) else temp
  }

  /**
   `r` is the integer `x` is rounded to: the nearest one, with ties upward, above -1/2; from there down the one a half
   to one and a half above it.
   */
  predicate Rounded(x: real, r: int) {
    if x > -0.5 then -0.5 < r as real - x <= 0.5 else 0.5 <= r as real - x < 1.5
  }

  /** What becomes of a sample: the top and bottom value within half a step of them and beyond, rounding between. */
  predicate Converted(x: real, top: nat, r: int) {
    if x >= top as real - 0.5 then r == top
    else if x <= -(top as real) - 1.5 then r == -(top + 1)
    else Rounded(x, r)
  }

  /** No formula is left open: every sample is converted to one integer, and rounding alone to one. */
  lemma OneResult(x: real, top: nat, r: int, q: int)
    ensures Converted(x, top, r) && Converted(x, top, q) ==> r == q
    ensures Rounded(x, r) && Rounded(x, q) ==> r == q
  {
  }

  /** The rounding that adds one half and truncates does that, clips included. */
  lemma ToIntegerConverts(x: real, top: nat)
    ensures Converted(x, top, ToInteger(x, top))
  {
  }

  method FloatToInteger(out: array<int>, input: array<real>, samples: nat, top: nat)
    requires samples <= out.Length && samples <= input.Length
    modifies out
    ensures forall i :: 0 <= i < samples ==> Converted(input[i], top, out[i]) && out[i] == ToInteger(input[i], top)
    ensures out[samples..] == old(out[samples..])
  {
    var i := 0;
    while i < samples
      invariant i <= samples
      invariant forall j :: 0 <= j < i ==> out[j] == ToInteger(input[j], top)
      invariant out[samples..] == old(out[samples..])
    {
      var temp := TruncReal(input[i] + 0.5);
      if temp > top {
        out[i] := top;
      } else if temp < -(top + 1) {
        out[i] := -(top + 1);
      } else {
        out[i] := temp;
      }
      i := i + 1;
    }
    forall j | 0 <= j < samples ensures Converted(input[j], top, out[j]) {
      ToIntegerConverts(input[j], top);
    }
  }

  lemma ToIntegerMonotone(x: real, y: real, top: nat)
    requires x <= y
    ensures ToInteger(x, top) <= ToInteger(y, top)
  {
  }

  /** An unclipped sample moves down by at most 1/2 and up by less than 3/2. */
  lemma ToIntegerError(x: real, top: nat)
    requires -(top + 1) as real <= x <= top as real
    ensures -0.5 <= ToInteger(x, top) as real - x < 1.5
  {
  }

  /** An integer sample survives the way through float exactly when it is not negative and not above top. */
  lemma IntegerSurvivesIff(n: int, top: nat)
    ensures ToInteger(n as real, top) == n <==> 0 <= n <= top
    ensures -(top + 1) <= n < 0 ==> ToInteger(n as real, top) == n + 1
  {
    if n >= 0 {
      assert (n as real + 0.5).Floor == n;
    } else {
      assert (-(n as real + 0.5)).Floor == -n - 1;
    }
  }

  /** Resampled 16-bit audio never overflows the 32-bit intermediate of the conversion. */
  lemma ResampledS16FitsTemp(stream: seq<real>, ch: nat, counts: seq<nat>, ratio: real, x: nat, c: nat)
    requires ratio > 0.0 && SessionOk(stream, ch, counts, ratio) && x < Total(counts) && c < ch
    requires forall i :: 0 <= i < |stream| ==> -32768.0 <= stream[i] <= 32767.0
    ensures |Session(stream, ch, counts, ratio)[x]| == ch
    ensures -40960 <= TruncReal(Session(stream, ch, counts, ratio)[x][c] + 0.5) <= 40960
  {
    SessionBounded(stream, ch, counts, ratio, 32768.0, x, c);
  }
}
