/** What the masks of the server compute on whole buffers, and that sign flips are lossless. */
module ConverterTheorems {
  import opened Bytes
  import opened Formats
  import opened Converter
  import opened ConverterCorrect

  // ----- conversion to the host's own formats -----

  /** The mask of converter_fmt_to_s16ne runs the reference conversion over the buffer. */
  lemma ToS16IsReference(f: Format, le: bool, s: seq<Byte>)
    ensures Pipeline(f, ToS16Mask(f, le), le, s) == Map(FormatBytes(f), s, Reference16(f, le))
  {
    var w, op := FormatBytes(f), ToS16Mask(f, le);
    S16MaskBits(f, le);
    if Linear(f) {
      SwapStage(f, le, s);
      FlipStage(f, le, s);
      ResizeStage16(f, le, s);
    } else {
      ExpandStage(f, le, s);
    }
  }

  lemma ToS32IsReference(f: Format, le: bool, s: seq<Byte>)
    requires FormatBytes(f) == 4
    ensures Pipeline(f, ToS32Mask(f, le).value, le, s) == Map(4, s, Reference32(f, le))
  {
    S32MaskBits(f, le);
    SwapStage(f, le, s);
    FlipStage(f, le, s);
    forall b: seq<Byte> | |b| == 4 ensures NativeOrder(f, le)(b) == Reference32(f, le)(b) {
      KeepNative(f, le, b);
    }
    MapSame(4, s, NativeOrder(f, le), Reference32(f, le));
  }

  /** `r`, read by the host as a signed 16-bit word, is the number `b` stands for in format `f`. */
  predicate Decodes16(f: Format, le: bool, b: seq<Byte>, r: seq<Byte>) {
    |b| == FormatBytes(f) && |r| == 2 && Signed(Get16(le, r), 2) == To16(f, Meaning(f, b))
  }

  predicate Decodes32(f: Format, le: bool, b: seq<Byte>, r: seq<Byte>) {
    |b| == FormatBytes(f) && |r| == 4 && Signed(Get32(le, r), 4) == Meaning(f, b)
  }

  lemma Reference16Decodes(f: Format, le: bool, b: seq<Byte>)
    requires |b| == FormatBytes(f)
    ensures Decodes16(f, le, b, Reference16(f, le)(b))
  {
    Ref16Meaning(f, le, b);
  }

  /**
   Every format, either host: as many samples come out as went in, in order, and the host reads each as the
   number it stood for.
   */
  lemma ToS16Decodes(f: Format, le: bool, s: seq<Byte>, n: nat, i: nat)
    requires |s| == FormatBytes(f) * n && i < n
    ensures |Pipeline(f, ToS16Mask(f, le), le, s)| == 2 * n
    ensures Decodes16(f, le, Sample(FormatBytes(f), s, i), Sample(2, Pipeline(f, ToS16Mask(f, le), le, s), i))
  {
    var w := FormatBytes(f);
    ToS16IsReference(f, le, s);
    MapLength(w, 2, s, Reference16(f, le), n);
    MapAt(w, 2, s, Reference16(f, le), n, i);
    Reference16Decodes(f, le, Sample(w, s, i));
  }

  lemma ToS32Decodes(f: Format, le: bool, s: seq<Byte>, n: nat, i: nat)
    requires FormatBytes(f) == 4 && |s| == 4 * n && i < n
    ensures |Pipeline(f, ToS32Mask(f, le).value, le, s)| == |s|
    ensures Decodes32(f, le, Sample(4, s, i), Sample(4, Pipeline(f, ToS32Mask(f, le).value, le, s), i))
  {
    ToS32IsReference(f, le, s);
    MapLength(4, 4, s, Reference32(f, le), n);
    MapAt(4, 4, s, Reference32(f, le), n, i);
    Ref32Meaning(f, le, Sample(4, s, i));
  }

  // ----- sign flips in the stored byte order -----

  /** The format of the same width and byte order and the other signedness. */
  function Counterpart(f: Format): (g: Format)
    ensures Linear(f) ==> Linear(g) && Unsigned(g) != Unsigned(f)
    ensures FormatBytes(g) == FormatBytes(f) && BigEndian(g) == BigEndian(f)
  {
    match f
    case S8 => U8 case U8 => S8
    case S16Le => U16Le case U16Le => S16Le case S16Be => U16Be case U16Be => S16Be
    case S32Le => U32Le case U32Le => S32Le case S32Be => U32Be case U32Be => S32Be
    case Alaw => Alaw case Mulaw => Mulaw
  }

  function FlipMask(f: Format): Mask { NONE.(uToS := Unsigned(f), sToU := !Unsigned(f)) }

  /** One flipped sample: into host order, sign bit over, back into stored order. */
  function Flip(f: Format, le: bool, b: seq<Byte>): (r: seq<Byte>)
    ensures |r| == |b|
  {
    var h := ToHost(f, le, b);
    ToHost(f, le, if Unsigned(f) then ToSigned(le, FormatBytes(f), h) else ToUnsigned(le, FormatBytes(f), h))
  }

  function Flipper(f: Format, le: bool): Sampler { b => Flip(f, le, b) }

  /** Either flip adds half the modulus to the word. */
  lemma FlipStores(le: bool, w: nat, h: seq<Byte>)
    requires w == 1 || w == 2 || w == 4
    requires |h| == w
    ensures ToSigned(le, w, h) == Store(le, w, Load(le, h) + Modulus(w) / 2)
    ensures ToUnsigned(le, w, h) == Store(le, w, Load(le, h) + Modulus(w) / 2)
  {
    LoadRange(le, h);
    var u: nat :| u == Load(le, h);
    SignArithmetic(u, w);
    WrapTurn(u - Modulus(w) / 2, w);
    StoreOnlyModulo(le, w, u - SignBit(w), u + Modulus(w) / 2);
    StoreOnlyModulo(le, w, Signed(u, w) + SignBit(w), u + Modulus(w) / 2);
  }

  /** The word of a flipped sample, in the byte order it is stored in, is half a turn away. */
  lemma FlipTurnsHalf(f: Format, le: bool, b: seq<Byte>)
    requires Linear(f) && |b| == FormatBytes(f)
    ensures Load(!BigEndian(f), Flip(f, le, b)) == Wrap(Load(!BigEndian(f), b) + Modulus(|b|) / 2, |b|)
  {
    var w: nat :| w == |b|;
    var h: seq<Byte> :| h == ToHost(f, le, b);
    ToHostLoads(f, le, b);
    FlipStores(le, w, h);
    var v: int :| v == Load(le, h) + Modulus(w) / 2;
    var flipped: seq<Byte> :| flipped == Store(le, w, v);
    assert Flip(f, le, b) == ToHost(f, le, flipped);
    LoadStore(le, w, v);
    ToHostTwice(f, le, flipped);
    ToHostLoads(f, le, ToHost(f, le, flipped));
  }

  lemma ToHostTwice(f: Format, le: bool, b: seq<Byte>)
    ensures ToHost(f, le, ToHost(f, le, b)) == b
  {
  }

  lemma HalfTurn(u: nat, w: nat)
    requires w == 1 || w == 2 || w == 4
    requires u < Modulus(w)
    ensures Wrap(u + Modulus(w) / 2, w) == if u < Modulus(w) / 2 then u + Modulus(w) / 2 else u - Modulus(w) / 2
  {
    if u < Modulus(w) / 2 {
      WrapSmall(u + Modulus(w) / 2, w);
    } else {
      WrapTurn(u - Modulus(w) / 2, w);
      WrapSmall(u - Modulus(w) / 2, w);
    }
  }

  lemma HalfTurns(u: nat, w: nat)
    requires w == 1 || w == 2 || w == 4
    requires u < Modulus(w)
    ensures var v := Wrap(u + Modulus(w) / 2, w);
            && v < Modulus(w)
            && Wrap(v + Modulus(w) / 2, w) == u
            && v - Modulus(w) / 2 == Signed(u, w)
            && Signed(v, w) == u - Modulus(w) / 2
  {
    HalfTurn(u, w);
    HalfTurn(if u < Modulus(w) / 2 then u + Modulus(w) / 2 else u - Modulus(w) / 2, w);
  }

  /** A flipped sample is the same number in the counterpart format, stored in the same byte order. */
  lemma FlipKeepsMeaning(f: Format, le: bool, b: seq<Byte>)
    requires Linear(f) && |b| == FormatBytes(f)
    ensures Meaning(Counterpart(f), Flip(f, le, b)) == Meaning(f, b)
  {
    FlipTurnsHalf(f, le, b);
    MeaningFromLoad(f, b);
    MeaningFromLoad(Counterpart(f), Flip(f, le, b));
    LoadRange(!BigEndian(f), b);
    HalfTurns(Load(!BigEndian(f), b), |b|);
  }

  lemma LoadInjective(le: bool, a: seq<Byte>, b: seq<Byte>)
    requires |a| == |b| && (|a| == 1 || |a| == 2 || |a| == 4)
    requires Load(le, a) == Load(le, b)
    ensures a == b
  {
    StoreLoad(le, a);
    StoreLoad(le, b);
  }

  /** Two half turns restore the word, and so its bytes. */
  lemma TwoHalfTurns(le: bool, b: seq<Byte>, once: seq<Byte>, twice: seq<Byte>)
    requires |b| == |once| == |twice| && (|b| == 1 || |b| == 2 || |b| == 4)
    requires Load(le, once) == Wrap(Load(le, b) + Modulus(|b|) / 2, |b|)
    requires Load(le, twice) == Wrap(Load(le, once) + Modulus(|b|) / 2, |b|)
    ensures twice == b
  {
    LoadRange(le, b);
    HalfTurns(Load(le, b), |b|);
    LoadInjective(le, twice, b);
  }

  lemma FlipTwice(f: Format, le: bool, b: seq<Byte>)
    requires Linear(f) && |b| == FormatBytes(f)
    ensures Flip(Counterpart(f), le, Flip(f, le, b)) == b
  {
    var once, twice := Flip(f, le, b), Flip(Counterpart(f), le, Flip(f, le, b));
    FlipTurnsHalf(f, le, b);
    FlipTurnsHalf(Counterpart(f), le, once);
    TwoHalfTurns(!BigEndian(f), b, once, twice);
  }

  /** A flip without SwapEndian works sample by sample, whatever the byte order of the host. */
  lemma FlipIsPerSample(f: Format, le: bool, s: seq<Byte>)
    requires Linear(f)
    ensures Pipeline(f, FlipMask(f), le, s) == Map(FormatBytes(f), s, Flipper(f, le))
  {
    FlipStages(f, le, s);
    FlipFused(f, le, s, FormatBytes(f));
  }

  function SignFlipper(f: Format, le: bool, w: nat): Sampler { if Unsigned(f) then Signer(le, w) else Unsigner(le, w) }

  lemma FlipStages(f: Format, le: bool, s: seq<Byte>)
    requires Linear(f)
    ensures Pipeline(f, FlipMask(f), le, s) ==
            var w := FormatBytes(f);
            var foreign := le == BigEndian(f) && w > 1;
            var flipped := Map(w, if foreign then Map(w, s, Swap) else s, SignFlipper(f, le, w));
            if foreign then Map(w, flipped, Swap) else flipped
  {
  }

  /** Swap, flip, swap back: three passes over the buffer are one. */
  lemma Sandwich(w: nat, s: seq<Byte>, flip: Sampler, whole: Sampler)
    requires w > 0 && Sizes(flip, w, w)
    requires forall b :: |b| == w ==> Swap(flip(Swap(b))) == whole(b)
    ensures Map(w, Map(w, Map(w, s, Swap), flip), Swap) == Map(w, s, whole)
  {
    var up: Sampler := b => flip(Swap(b));
    MapFusion(w, s, Swap, flip, up);
    MapFusion(w, s, up, Swap, whole);
  }

  lemma FlipFused(f: Format, le: bool, s: seq<Byte>, w: nat)
    requires Linear(f) && w == FormatBytes(f)
    ensures var foreign := le == BigEndian(f) && w > 1;
            var flipped := Map(w, if foreign then Map(w, s, Swap) else s, SignFlipper(f, le, w));
            (if foreign then Map(w, flipped, Swap) else flipped) == Map(w, s, Flipper(f, le))
  {
    if le == BigEndian(f) && w > 1 {
      Sandwich(w, s, SignFlipper(f, le, w), Flipper(f, le));
    } else {
      MapSame(w, s, SignFlipper(f, le, w), Flipper(f, le));
    }
  }

  /** Flipping there and back restores any buffer, a broken last sample included. */
  lemma FlipsUndoEachOther(f: Format, le: bool, s: seq<Byte>)
    requires Linear(f)
    ensures var t := Pipeline(f, FlipMask(f), le, s);
            |t| == |s| && Pipeline(Counterpart(f), FlipMask(Counterpart(f)), le, t) == s
  {
    var w, g := FormatBytes(f), Counterpart(f);
    var t := Pipeline(f, FlipMask(f), le, s);
    FlipIsPerSample(f, le, s);
    MapKeepsLength(w, s, Flipper(f, le));
    FlipIsPerSample(g, le, t);
    forall b: seq<Byte> | |b| == w ensures Flipper(g, le)(Flipper(f, le)(b)) == b {
      FlipTwice(f, le, b);
    }
    var same: Sampler := b => b;
    MapFusion(w, s, Flipper(f, le), Flipper(g, le), same);
    MapIdentity(w, s, same);
  }

  lemma FlippedSamplesKeepMeaning(f: Format, le: bool, s: seq<Byte>, n: nat, i: nat)
    requires Linear(f) && |s| == FormatBytes(f) * n && i < n
    ensures var b := Sample(FormatBytes(f), s, i);
            var t := Sample(FormatBytes(f), Pipeline(f, FlipMask(f), le, s), i);
            |b| == |t| == FormatBytes(f) && Meaning(Counterpart(f), t) == Meaning(f, b)
  {
    var w := FormatBytes(f);
    FlipIsPerSample(f, le, s);
    MapAt(w, w, s, Flipper(f, le), n, i);
    FlipKeepsMeaning(f, le, Sample(w, s, i));
  }
}
