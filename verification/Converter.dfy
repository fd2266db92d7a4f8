/** audio_converter of src/audio.c: a mask of operations driving in-place loops over one byte buffer. */
module Converter {
  import opened Bytes
  import opened G711
  import opened Formats

  /** The bits of an operation mask (RSD_S_TO_U and the others of src/audio.h), the float ones aside. */
  datatype Mask = Mask(
    sToU: bool, uToS: bool, swapEndian: bool,
    alawToS16: bool, mulawToS16: bool, s8ToS16: bool, s32ToS16: bool)

  const NONE := Mask(false, false, false, false, false, false, false)

  type Sampler = seq<Byte> -> seq<Byte>

  /** `f` on every whole sample of `w` bytes; a rest shorter than a sample stays. */
  function Map(w: nat, s: seq<Byte>, f: Sampler): seq<Byte> {
    if w == 0 || |s| < w then s else f(s[..w]) + Map(w, s[w..], f)
  }

  // ----- what the loop bodies do to one sample -----

  function Load(le: bool, b: seq<Byte>): nat
    requires |b| == 1 || |b| == 2 || |b| == 4
  {
    if |b| == 1 then b[0] else if |b| == 2 then Get16(le, b) else Get32(le, b)
  }

  function Store(le: bool, w: nat, v: int): (b: seq<Byte>)
    requires w == 1 || w == 2 || w == 4
    ensures |b| == w
  {
    if w == 1 then [Wrap(v, 1)] else if w == 2 then Put16(le, Wrap(v, 2)) else Put32(le, Wrap(v, 4))
  }

  /** swap_endian_16, swap_endian_32. */
  function Swap(b: seq<Byte>): (r: seq<Byte>)
    ensures |r| == |b|
  {
    if |b| == 2 then [b[1], b[0]] else if |b| == 4 then [b[3], b[2], b[1], b[0]] else b
  }

  /** The C constant 1 << (8 * w - 1): in 32-bit int arithmetic the widest one is negative. */
  function SignBit(w: nat): int { if w == 1 then 128 else if w == 2 then 0x8000 else -0x8000_0000 }

  function ToUnsigned(le: bool, w: nat, b: seq<Byte>): (r: seq<Byte>)
    ensures |r| == |b|
  {
    if |b| == w && (w == 1 || w == 2 || w == 4) then Store(le, w, Signed(Load(le, b), w) + SignBit(w)) else b
  }

  function ToSigned(le: bool, w: nat, b: seq<Byte>): (r: seq<Byte>)
    ensures |r| == |b|
  {
    if |b| == w && (w == 1 || w == 2 || w == 4) then Store(le, w, Load(le, b) - SignBit(w)) else b
  }

  function ExpandAlaw(le: bool, b: seq<Byte>): (r: seq<Byte>)
    ensures |b| == 1 ==> |r| == 2
  {
    if |b| == 1 then Put16(le, Wrap(AlawTable(b[0]), 2)) else b
  }

  function ExpandMulaw(le: bool, b: seq<Byte>): (r: seq<Byte>)
    ensures |b| == 1 ==> |r| == 2
  {
    if |b| == 1 then Put16(le, Wrap(MulawTable(b[0]), 2)) else b
  }

  function Widen(le: bool, b: seq<Byte>): (r: seq<Byte>)
    ensures |b| == 1 ==> |r| == 2
  {
    if |b| == 1 then Put16(le, Wrap(Signed(b[0], 1) * 256, 2)) else b
  }

  function Narrow(le: bool, b: seq<Byte>): (r: seq<Byte>)
    ensures |b| == 4 ==> |r| == 2
  {
    if |b| == 4 then Put16(le, Wrap(Signed(Get32(le, b), 4) / 0x1_0000, 2)) else b
  }

  function Unsigner(le: bool, w: nat): Sampler { b => ToUnsigned(le, w, b) }

  function Signer(le: bool, w: nat): Sampler { b => ToSigned(le, w, b) }

  function AlawExpander(le: bool): Sampler { b => ExpandAlaw(le, b) }

  function MulawExpander(le: bool): Sampler { b => ExpandMulaw(le, b) }

  function Widener(le: bool): Sampler { b => Widen(le, b) }

  function Narrower(le: bool): Sampler { b => Narrow(le, b) }

  // ----- the whole conversion, stage by stage -----

  predicate Expands(op: Mask) { op.alawToS16 || op.mulawToS16 }

  /** The data is not in the byte order of the host; expanded data always is. */
  predicate Foreign(f: Format, op: Mask, le: bool) {
    !Expands(op) && le == BigEndian(f)
  }

  function Expanded(op: Mask, le: bool, s: seq<Byte>): seq<Byte> {
    var s1 := if op.alawToS16 then Map(1, s, AlawExpander(le)) else s;
    if op.mulawToS16 then Map(1, s1, MulawExpander(le)) else s1
  }

  function Flipped(op: Mask, le: bool, w: nat, s: seq<Byte>): seq<Byte> {
    if op.sToU then Map(w, s, Unsigner(le, w))
    else if op.uToS then Map(w, s, Signer(le, w))
    else s
  }

  function Resized(op: Mask, le: bool, s: seq<Byte>): seq<Byte> {
    if op.s8ToS16 then Map(1, s, Widener(le))
    else if op.s32ToS16 then Map(4, s, Narrower(le))
    else s
  }

  function Swapped(w: nat, s: seq<Byte>): seq<Byte> { if w > 1 then Map(w, s, Swap) else s }

  /** What audio_converter leaves in the buffer. `w` stays the sample size of the format passed in. */
  function Pipeline(f: Format, op: Mask, le: bool, s: seq<Byte>): seq<Byte> {
    if op == NONE then s
    else
      var w := FormatBytes(f);
      var swapped := Foreign(f, op, le);
      var s1 := Expanded(op, le, s);
      var s2 := if swapped then Swapped(w, s1) else s1;
      var s3 := Resized(op, le, Flipped(op, le, w, s2));
      if op.swapEndian != swapped then Swapped(w, s3) else s3
  }

  /** A mask that fits the format: codes and bytes are widened once, only 32-bit samples are narrowed. */
  predicate MaskFits(f: Format, op: Mask) {
    && (op.alawToS16 ==> FormatBytes(f) == 1 && !op.mulawToS16 && !op.s8ToS16)
    && (op.mulawToS16 ==> FormatBytes(f) == 1 && !op.s8ToS16)
    && (op.s8ToS16 ==> FormatBytes(f) == 1)
    && (op.s32ToS16 ==> FormatBytes(f) == 4)
  }

  function ResultLength(op: Mask, bytes: nat): nat {
    if Expands(op) || op.s8ToS16 then 2 * bytes else if op.s32ToS16 then bytes / 2 else bytes
  }

  // ----- facts about Map -----

  ghost predicate Sizes(f: Sampler, w: nat, m: nat) { forall b :: |b| == w ==> |f(b)| == m }

  lemma {:induction false} MapLength(w: nat, m: nat, s: seq<Byte>, f: Sampler, n: nat)
    requires w > 0 && |s| == w * n && Sizes(f, w, m)
    ensures |Map(w, s, f)| == m * n
    decreases n
  {
    if n > 0 {
      assert |s[w..]| == w * (n - 1);
      MapLength(w, m, s[w..], f, n - 1);
    }
  }

  lemma {:induction false} MapSplit(w: nat, s: seq<Byte>, t: seq<Byte>, f: Sampler, n: nat)
    requires w > 0 && |s| == w * n
    ensures Map(w, s + t, f) == Map(w, s, f) + Map(w, t, f)
    decreases n
  {
    if n == 0 {
      assert s + t == t;
    } else {
      assert |s[w..]| == w * (n - 1);
      assert (s + t)[..w] == s[..w] && (s + t)[w..] == s[w..] + t;
      MapSplit(w, s[w..], t, f, n - 1);
    }
  }

  /** Two passes over the buffer are one pass with the composed sample function. */
  lemma {:induction false} MapFusion(w: nat, s: seq<Byte>, f: Sampler, g: Sampler, h: Sampler)
    requires w > 0 && Sizes(f, w, w)
    requires forall b :: |b| == w ==> g(f(b)) == h(b)
    ensures Map(w, Map(w, s, f), g) == Map(w, s, h)
    decreases |s|
  {
    if |s| >= w {
      MapFusion(w, s[w..], f, g, h);
      var first, rest := f(s[..w]), Map(w, s[w..], f);
      assert (first + rest)[..w] == first && (first + rest)[w..] == rest;
    }
  }

  lemma {:induction false} MapSame(w: nat, s: seq<Byte>, f: Sampler, g: Sampler)
    requires w > 0
    requires forall b :: |b| == w ==> f(b) == g(b)
    ensures Map(w, s, f) == Map(w, s, g)
    decreases |s|
  {
    if |s| >= w {
      MapSame(w, s[w..], f, g);
    }
  }

  lemma {:induction false} MapIdentity(w: nat, s: seq<Byte>, f: Sampler)
    requires w > 0
    requires forall b :: |b| == w ==> f(b) == b
    ensures Map(w, s, f) == s
    decreases |s|
  {
    if |s| >= w {
      MapIdentity(w, s[w..], f);
      assert s[..w] + s[w..] == s;
    }
  }

  lemma {:induction false} MapKeepsLength(w: nat, s: seq<Byte>, f: Sampler)
    requires w > 0 && Sizes(f, w, w)
    ensures |Map(w, s, f)| == |s|
    decreases |s|
  {
    if |s| >= w {
      MapKeepsLength(w, s[w..], f);
    }
  }

  /** Sample `i` of a buffer of `w`-byte samples. */
  function Sample(w: nat, s: seq<Byte>, i: nat): seq<Byte> {
    if 0 <= w * i && w * i + w <= |s| then s[w * i..w * i + w] else []
  }

  lemma SampleOfTail(w: nat, first: seq<Byte>, rest: seq<Byte>, i: nat)
    requires i > 0 && |first| == w
    ensures Sample(w, first + rest, i) == Sample(w, rest, i - 1)
  {
    assert w * i == w + w * (i - 1);
    if 0 <= w * i && w * i + w <= |first + rest| {
      assert (first + rest)[w * i..w * i + w] == rest[w * (i - 1)..w * (i - 1) + w];
    }
  }

  /** Sample `i` of the result comes from sample `i` of the input and from nothing else. */
  lemma {:induction false} MapAt(w: nat, m: nat, s: seq<Byte>, f: Sampler, n: nat, i: nat)
    requires w > 0 && |s| == w * n && Sizes(f, w, m) && i < n
    ensures |Sample(w, s, i)| == w
    ensures Sample(m, Map(w, s, f), i) == f(Sample(w, s, i))
    decreases n
  {
    assert |s[w..]| == w * (n - 1);
    var first, rest := f(s[..w]), Map(w, s[w..], f);
    assert Map(w, s, f) == first + rest;
    assert s == s[..w] + s[w..];
    if i > 0 {
      MapAt(w, m, s[w..], f, n - 1, i - 1);
      SampleOfTail(w, s[..w], s[w..], i);
      SampleOfTail(m, first, rest, i);
    } else {
      assert (first + rest)[..m] == first;
      assert w * i == 0 && m * i == 0;
    }
  }
}
