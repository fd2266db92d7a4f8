/** The masks the server builds, and what the converter does with them: the reference, sample by sample. */
module ConverterCorrect {
  import opened Bytes
  import opened G711
  import opened Formats
  import opened Converter

  /** converter_fmt_to_s16ne. */
  function ToS16Mask(f: Format, le: bool): Mask {
    match f
    case S32Le => NONE.(s32ToS16 := true, swapEndian := !le)
    case S16Le => NONE.(swapEndian := !le)
    case S32Be => NONE.(s32ToS16 := true, swapEndian := le)
    case S16Be => NONE.(swapEndian := le)
    case U32Le => NONE.(s32ToS16 := true, uToS := true, swapEndian := !le)
    case U16Le => NONE.(uToS := true, swapEndian := !le)
    case U32Be => NONE.(s32ToS16 := true, uToS := true, swapEndian := le)
    case U16Be => NONE.(uToS := true, swapEndian := le)
    case U8 => NONE.(uToS := true, s8ToS16 := true)
    case S8 => NONE.(s8ToS16 := true)
    case Alaw => NONE.(alawToS16 := true)
    case Mulaw => NONE.(mulawToS16 := true)
  }

  /** converter_fmt_to_s32ne; None is its -1. */
  function ToS32Mask(f: Format, le: bool): Option<Mask> {
    match f
    case S32Le => Some(NONE.(swapEndian := !le))
    case S32Be => Some(NONE.(swapEndian := le))
    case U32Le => Some(NONE.(uToS := true, swapEndian := !le))
    case U32Be => Some(NONE.(uToS := true, swapEndian := le))
    case _ => None
  }

  // ----- single samples -----

  lemma LoadSwap(le: bool, b: seq<Byte>)
    requires |b| == 2 || |b| == 4
    ensures Load(le, Swap(b)) == Load(!le, b)
  {
    if |b| == 4 {
      var s := Swap(b);
      assert Get16(le, s[..2]) == Get16(!le, b[2..]) && Get16(le, s[2..]) == Get16(!le, b[..2]);
    }
  }

  lemma WrapSmall(u: nat, w: nat)
    requires u < Modulus(w)
    ensures Wrap(u, w) == u
  {
  }

  lemma LoadRange(le: bool, b: seq<Byte>)
    requires |b| == 1 || |b| == 2 || |b| == 4
    ensures Load(le, b) < Modulus(|b|)
  {
    if |b| == 2 {
      Put16Get16(le, b);
    } else if |b| == 4 {
      Put32Get32(le, b);
    }
  }

  lemma StoreLoad(le: bool, b: seq<Byte>)
    requires |b| == 1 || |b| == 2 || |b| == 4
    ensures Load(le, b) < Modulus(|b|)
    ensures Store(le, |b|, Load(le, b)) == b
  {
    LoadRange(le, b);
    var u: nat :| u == Load(le, b);
    WrapSmall(u, |b|);
    if |b| == 1 {
      assert Store(le, 1, u) == [u] == b;
    } else if |b| == 2 {
      Put16Get16(le, b);
      assert Store(le, 2, u) == Put16(le, u);
    } else {
      Put32Get32(le, b);
      assert Store(le, 4, u) == Put32(le, u);
    }
  }

  lemma LoadStore(le: bool, w: nat, v: int)
    requires w == 1 || w == 2 || w == 4
    ensures Load(le, Store(le, w, v)) == Wrap(v, w)
  {
    if w == 2 {
      Get16Put16(le, Wrap(v, 2));
    } else if w == 4 {
      Get32Put32(le, Wrap(v, 4));
    }
  }

  predicate Linear(f: Format) { !f.Alaw? && !f.Mulaw? }

  /** The meaning of a linear sample, from its stored word. */
  lemma MeaningFromLoad(f: Format, b: seq<Byte>)
    requires Linear(f) && |b| == FormatBytes(f)
    ensures var u := Load(!BigEndian(f), b);
            Meaning(f, b) == if Unsigned(f) then u - Modulus(|b|) / 2 else Signed(u, |b|)
  {
  }

  /** A sample in host byte order and two's complement: what swapping and sign flipping arrive at. */
  function Native(f: Format, le: bool, b: seq<Byte>): (r: seq<Byte>)
    ensures |r| == |b|
  {
    if Linear(f) && |b| == FormatBytes(f) then Store(le, |b|, Meaning(f, b)) else b
  }

  function ToHost(f: Format, le: bool, b: seq<Byte>): (r: seq<Byte>)
    ensures |r| == |b|
  {
    if le == BigEndian(f) && FormatBytes(f) > 1 then Swap(b) else b
  }

  lemma ToHostLoads(f: Format, le: bool, b: seq<Byte>)
    requires |b| == FormatBytes(f)
    ensures Load(le, ToHost(f, le, b)) == Load(!BigEndian(f), b)
  {
    if le == BigEndian(f) && |b| > 1 {
      LoadSwap(le, b);
    }
  }

  lemma WrapTurn(v: int, w: nat)
    ensures Wrap(v + Modulus(w), w) == Wrap(v, w)
  {
  }

  /** The sign bit is half the modulus, so flipping it is the same up or down. */
  lemma SignArithmetic(u: nat, w: nat)
    requires w == 1 || w == 2 || w == 4
    requires u < Modulus(w)
    ensures Wrap(u - SignBit(w), w) == Wrap(u - Modulus(w) / 2, w)
    ensures Wrap(Signed(u, w), w) == u
    ensures Wrap(Signed(u, w) + SignBit(w), w) == Wrap(u + Modulus(w) / 2, w)
  {
    WrapSmall(u, w);
    WrapTurn(u - Modulus(w), w);
    WrapTurn(u - Modulus(w) / 2, w);
    WrapTurn(Signed(u, w) + SignBit(w), w);
    WrapTurn(u - Modulus(w) + SignBit(w), w);
  }

  lemma StoreOnlyModulo(le: bool, w: nat, v: int, v': int)
    requires w == 1 || w == 2 || w == 4
    requires Wrap(v, w) == Wrap(v', w)
    ensures Store(le, w, v) == Store(le, w, v')
  {
  }

  lemma FlipIsNative(f: Format, le: bool, b: seq<Byte>)
    requires Linear(f) && |b| == FormatBytes(f)
    ensures Unsigned(f) ==> ToSigned(le, |b|, ToHost(f, le, b)) == Native(f, le, b)
    ensures !Unsigned(f) ==> ToHost(f, le, b) == Native(f, le, b)
  {
    var w: nat :| w == |b|;
    var h: seq<Byte> :| h == ToHost(f, le, b);
    ToHostLoads(f, le, b);
    MeaningFromLoad(f, b);
    StoreLoad(le, h);
    var u: nat :| u == Load(le, h);
    SignArithmetic(u, w);
    if Unsigned(f) {
      StoreOnlyModulo(le, w, u - SignBit(w), u - Modulus(w) / 2);
    } else {
      WrapSmall(u, w);
      StoreOnlyModulo(le, w, Signed(u, w), u);
    }
  }

  lemma WidenNative(f: Format, le: bool, b: seq<Byte>)
    requires Linear(f) && |b| == FormatBytes(f) == 1
    ensures Widen(le, Native(f, le, b)) == Ref16(f, le, b)
  {
    MeaningRange(f, b);
    var m: int :| m == Meaning(f, b);
    assert Signed(Wrap(m, 1), 1) == m;
  }

  lemma KeepNative(f: Format, le: bool, b: seq<Byte>)
    requires |b| == FormatBytes(f)
    ensures |b| == 2 ==> Native(f, le, b) == Ref16(f, le, b)
    ensures |b| == 4 ==> Native(f, le, b) == Ref32(f, le, b)
  {
  }

  lemma NarrowNative(f: Format, le: bool, b: seq<Byte>)
    requires |b| == FormatBytes(f) == 4
    ensures Narrow(le, Native(f, le, b)) == Ref16(f, le, b)
  {
    MeaningRange(f, b);
    var m: int :| m == Meaning(f, b);
    LoadStore(le, 4, m);
    SignedWrap(m, 4);
  }

  // ----- whole buffers -----

  function HostOrder(f: Format, le: bool): Sampler { b => ToHost(f, le, b) }

  function NativeOrder(f: Format, le: bool): Sampler { b => Native(f, le, b) }

  function Reference16(f: Format, le: bool): Sampler { b => if |b| == FormatBytes(f) then Ref16(f, le, b) else b }

  function Reference32(f: Format, le: bool): Sampler {
    b => if |b| == FormatBytes(f) == 4 then Ref32(f, le, b) else b
  }

  /** The mask, operation by operation. */
  lemma S16MaskBits(f: Format, le: bool)
    ensures var op := ToS16Mask(f, le);
            && MaskFits(f, op)
            && !op.sToU
            && (op.uToS <==> Unsigned(f))
            && (op.swapEndian <==> le == BigEndian(f) && FormatBytes(f) > 1)
            && (op.alawToS16 <==> f.Alaw?)
            && (op.mulawToS16 <==> f.Mulaw?)
            && (op.s8ToS16 <==> f.U8? || f.S8?)
            && (op.s32ToS16 <==> FormatBytes(f) == 4)
  {
  }

  lemma S32MaskBits(f: Format, le: bool)
    ensures ToS32Mask(f, le).Some? <==> FormatBytes(f) == 4
    ensures FormatBytes(f) == 4 ==>
              var op := ToS32Mask(f, le).value;
              && MaskFits(f, op)
              && op == NONE.(uToS := Unsigned(f), swapEndian := le == BigEndian(f))
  {
  }

  lemma SwapStage(f: Format, le: bool, s: seq<Byte>)
    ensures (if le == BigEndian(f) && FormatBytes(f) > 1 then Swapped(FormatBytes(f), s) else s)
         == Map(FormatBytes(f), s, HostOrder(f, le))
  {
    var w := FormatBytes(f);
    if le == BigEndian(f) && w > 1 {
      MapSame(w, s, Swap, HostOrder(f, le));
    } else {
      MapIdentity(w, s, HostOrder(f, le));
    }
  }

  /** Byte order and sign together: every sample arrives in the host's own signed form. */
  lemma FlipStage(f: Format, le: bool, s: seq<Byte>)
    requires Linear(f)
    ensures var w := FormatBytes(f);
            var host := Map(w, s, HostOrder(f, le));
            (if Unsigned(f) then Map(w, host, Signer(le, w)) else host) == Map(w, s, NativeOrder(f, le))
  {
    var w := FormatBytes(f);
    forall b: seq<Byte> | |b| == w
      ensures Unsigned(f) ==> Signer(le, w)(HostOrder(f, le)(b)) == NativeOrder(f, le)(b)
      ensures !Unsigned(f) ==> HostOrder(f, le)(b) == NativeOrder(f, le)(b)
    {
      FlipIsNative(f, le, b);
    }
    if Unsigned(f) {
      MapFusion(w, s, HostOrder(f, le), Signer(le, w), NativeOrder(f, le));
    } else {
      MapSame(w, s, HostOrder(f, le), NativeOrder(f, le));
    }
  }

  lemma ResizeStage16(f: Format, le: bool, s: seq<Byte>)
    requires Linear(f)
    ensures var w := FormatBytes(f);
            var native := Map(w, s, NativeOrder(f, le));
            (if w == 1 then Map(1, native, Widener(le)) else if w == 4 then Map(4, native, Narrower(le)) else native)
            == Map(w, s, Reference16(f, le))
  {
    var w := FormatBytes(f);
    forall b: seq<Byte> | |b| == w
      ensures w == 1 ==> Widener(le)(NativeOrder(f, le)(b)) == Reference16(f, le)(b)
      ensures w == 2 ==> NativeOrder(f, le)(b) == Reference16(f, le)(b)
      ensures w == 4 ==> Narrower(le)(NativeOrder(f, le)(b)) == Reference16(f, le)(b)
    {
      if w == 1 { WidenNative(f, le, b); }
      if w == 2 { KeepNative(f, le, b); }
      if w == 4 { NarrowNative(f, le, b); }
    }
    if w == 1 {
      MapFusion(1, s, NativeOrder(f, le), Widener(le), Reference16(f, le));
    } else if w == 4 {
      MapFusion(4, s, NativeOrder(f, le), Narrower(le), Reference16(f, le));
    } else {
      MapSame(2, s, NativeOrder(f, le), Reference16(f, le));
    }
  }

  lemma ExpandStage(f: Format, le: bool, s: seq<Byte>)
    requires !Linear(f)
    ensures Map(1, s, if f.Alaw? then AlawExpander(le) else MulawExpander(le)) == Map(1, s, Reference16(f, le))
  {
    var expander := if f.Alaw? then AlawExpander(le) else MulawExpander(le);
    forall b: seq<Byte> | |b| == 1 ensures expander(b) == Reference16(f, le)(b) {
      if f.Alaw? {
        AlawTableIsG711(b[0]);
      } else {
        MulawTableIsG711(b[0]);
      }
    }
    MapSame(1, s, expander, Reference16(f, le));
  }
}
