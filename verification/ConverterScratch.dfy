/** How far the loops of audio_converter reach into its scratch buffer, which has twice the bytes of the input. */
module ConverterScratch {
  import opened Bytes
  import opened Formats
  import opened Converter
  import opened ConverterCorrect

  /** The float bits of an operation mask: RSD_S16_TO_FLOAT is looked at first. */
  datatype FloatOp = Keep | S16ToFloat | S32ToFloat

  /** One past the highest index read, and one past the highest written. */
  datatype Extent = Extent(readTo: nat, writeTo: nat)

  const UNTOUCHED := Extent(0, 0)

  function Cover(d: Extent, e: Extent): Extent {
    Extent(if d.readTo < e.readTo then e.readTo else d.readTo, if d.writeTo < e.writeTo then e.writeTo else d.writeTo)
  }

  // ----- the loops -----

  predicate SampleSize(w: nat) { w == 1 || w == 2 || w == 4 }

  /** The bytes of the whole samples among `bytes`. */
  function Whole(w: nat, bytes: nat): (n: nat)
    requires SampleSize(w)
    ensures n <= bytes
  {
    if w == 1 then bytes else if w == 2 then bytes - bytes % 2 else bytes - bytes % 4
  }

  function EachExtent(w: nat, bytes: nat): Extent
    requires SampleSize(w)
  {
    Extent(Whole(w, bytes), Whole(w, bytes))
  }

  function SwapExtent(w: nat, bytes: nat): Extent
    requires SampleSize(w)
  {
    if w > 1 then EachExtent(w, bytes) else UNTOUCHED
  }

  function ExpandExtent(op: Mask, bytes: nat): Extent {
    if Expands(op) then Extent(bytes, 2 * bytes) else UNTOUCHED
  }

  function FlipExtent(op: Mask, w: nat, bytes: nat): Extent
    requires SampleSize(w)
  {
    if op.sToU || op.uToS then EachExtent(w, bytes) else UNTOUCHED
  }

  function ResizeExtent(op: Mask, bytes: nat): Extent {
    if op.s8ToS16 then Extent(bytes, 2 * bytes)
    else if op.s32ToS16 then Extent(4 * bytes, 2 * bytes)
    else UNTOUCHED
  }

  function FloatExtent(fl: FloatOp, bytes: nat): Extent {
    match fl
    case Keep => UNTOUCHED
    case S16ToFloat => Extent(Whole(2, bytes), 2 * Whole(2, bytes))
    case S32ToFloat => EachExtent(4, bytes)
  }

  // ----- the whole conversion -----

  function ExpandedLength(op: Mask, bytes: nat): nat { if Expands(op) then 2 * bytes else bytes }

  /** Up to the sign flip: expansion, host order, flip. */
  function HostExtent(f: Format, op: Mask, le: bool, bytes: nat): Extent {
    var w, n := FormatBytes(f), ExpandedLength(op, bytes);
    Cover(Cover(ExpandExtent(op, bytes), if Foreign(f, op, le) then SwapExtent(w, n) else UNTOUCHED),
          FlipExtent(op, w, n))
  }

  /** After it: the change of width, and the byte order asked for. */
  function FinishExtent(f: Format, op: Mask, le: bool, n: nat, len: nat): Extent {
    Cover(ResizeExtent(op, n),
          if op.swapEndian != Foreign(f, op, le) then SwapExtent(FormatBytes(f), len) else UNTOUCHED)
  }

  function ConvertExtent(f: Format, op: Mask, le: bool, bytes: nat): Extent {
    Cover(HostExtent(f, op, le, bytes), FinishExtent(f, op, le, ExpandedLength(op, bytes), ResultLength(op, bytes)))
  }

  function FloatLength(fl: FloatOp, bytes: nat): nat { if fl.S16ToFloat? then 2 * bytes else bytes }

  /** With the float stage. */
  function WorkExtent(f: Format, op: Mask, fl: FloatOp, le: bool, bytes: nat): Extent {
    Cover(ConvertExtent(f, op, le, bytes), FloatExtent(fl, ResultLength(op, bytes)))
  }

  /** And with the copies in and out of the scratch buffer. */
  function ScratchExtent(f: Format, op: Mask, fl: FloatOp, le: bool, bytes: nat): Extent {
    if op == NONE && fl == Keep then UNTOUCHED
    else WithCopies(WorkExtent(f, op, fl, le, bytes), bytes, FloatLength(fl, ResultLength(op, bytes)))
  }

  function WithCopies(e: Extent, bytes: nat, len: nat): Extent { Cover(Cover(Extent(0, bytes), e), Extent(len, 0)) }

  /** One-byte samples become 16-bit ones. */
  predicate Widens(op: Mask) { Expands(op) || op.s8ToS16 }

  // ----- where the scratch buffer ends -----

  lemma NarrowExtent(f: Format, op: Mask, le: bool, bytes: nat)
    requires MaskFits(f, op) && op.s32ToS16
    ensures ConvertExtent(f, op, le, bytes).readTo == 4 * bytes
    ensures ConvertExtent(f, op, le, bytes).writeTo == 2 * bytes
  {
  }

  lemma OtherExtent(f: Format, op: Mask, le: bool, bytes: nat)
    requires MaskFits(f, op) && !op.s32ToS16
    ensures ConvertExtent(f, op, le, bytes).readTo <= 2 * bytes
    ensures ConvertExtent(f, op, le, bytes).writeTo <= 2 * bytes
  {
  }

  /**
   Every mask that fits the format, with any float bit. Writes leave the scratch buffer exactly when one-byte samples
   are widened and then become floats. Reads leave it in these cases and when 32-bit samples are narrowed.
   */
  lemma ScratchInsideIff(f: Format, op: Mask, fl: FloatOp, le: bool, bytes: nat)
    requires MaskFits(f, op)
    ensures ScratchExtent(f, op, fl, le, bytes).writeTo <= 2 * bytes
            <==> !(fl.S16ToFloat? && Widens(op)) || bytes == 0
    ensures ScratchExtent(f, op, fl, le, bytes).readTo <= 2 * bytes
            <==> (!(fl.S16ToFloat? && Widens(op)) && !op.s32ToS16) || bytes == 0
    ensures op.s32ToS16 ==> ScratchExtent(f, op, fl, le, bytes).readTo == 4 * bytes
  {
    var e: Extent :| e == ConvertExtent(f, op, le, bytes);
    StagesInside(f, op, le, bytes, e);
    if op == NONE && fl == Keep {
      assert ScratchExtent(f, op, fl, le, bytes) == UNTOUCHED;
    } else {
      FloatInside(op, fl, bytes, e, ScratchExtent(f, op, fl, le, bytes));
    }
  }

  /** Before the float stage only narrowing leaves the scratch buffer, and only the reads do. */
  lemma StagesInside(f: Format, op: Mask, le: bool, bytes: nat, e: Extent)
    requires MaskFits(f, op) && e == ConvertExtent(f, op, le, bytes)
    ensures e.writeTo <= 2 * bytes
    ensures if op.s32ToS16 then e.readTo == 4 * bytes else e.readTo <= 2 * bytes
    ensures op.s32ToS16 ==> !Widens(op)
  {
    if op.s32ToS16 {
      NarrowExtent(f, op, le, bytes);
    } else {
      OtherExtent(f, op, le, bytes);
    }
  }

  /** The float stage and the copies, after stages that reached as far as `e`. */
  lemma FloatInside(op: Mask, fl: FloatOp, bytes: nat, e: Extent, all: Extent)
    requires e.writeTo <= 2 * bytes && (op.s32ToS16 ==> !Widens(op))
    requires if op.s32ToS16 then e.readTo == 4 * bytes else e.readTo <= 2 * bytes
    requires var len := ResultLength(op, bytes);
             all == WithCopies(Cover(e, FloatExtent(fl, len)), bytes, FloatLength(fl, len))
    ensures all.writeTo <= 2 * bytes <==> !(fl.S16ToFloat? && Widens(op)) || bytes == 0
    ensures all.readTo <= 2 * bytes <==> (!(fl.S16ToFloat? && Widens(op)) && !op.s32ToS16) || bytes == 0
    ensures op.s32ToS16 ==> all.readTo == 4 * bytes
  {
  }

  /**
   The same, index by index, for the words s32_to_s16 reads and the words it writes when its count is the byte
   count.
   */
  lemma NarrowIndices(bytes: nat)
    ensures (forall i :: 0 <= i < bytes ==> 4 * i + 3 < 2 * bytes) <==> bytes == 0
    ensures forall i :: 0 <= i < bytes ==> 2 * i + 1 < 2 * bytes
  {
    assert bytes > 0 ==> 4 * (bytes - 1) + 3 >= 2 * bytes;
  }

  /** Among the 16-bit masks the server builds these are the 32-bit formats, all four of them, on either host. */
  lemma ToS16InsideIff(f: Format, le: bool, bytes: nat)
    ensures ScratchExtent(f, ToS16Mask(f, le), Keep, le, bytes).readTo <= 2 * bytes
            <==> FormatBytes(f) != 4 || bytes == 0
    ensures ScratchExtent(f, ToS16Mask(f, le), Keep, le, bytes).writeTo <= 2 * bytes
  {
    S16MaskBits(f, le);
    ScratchInsideIff(f, ToS16Mask(f, le), Keep, le, bytes);
  }

  /** One 32-bit sample: eight bytes of scratch, sixteen read. */
  lemma OneSampleReadsOutside()
    ensures ScratchExtent(S32Le, ToS16Mask(S32Le, true), Keep, true, 4).readTo == 16
    ensures ScratchExtent(S32Le, ToS16Mask(S32Le, true), Keep, true, 4).writeTo <= 8
  {
    S16MaskBits(S32Le, true);
    ScratchInsideIff(S32Le, ToS16Mask(S32Le, true), Keep, true, 4);
  }

  /** audio_conv_op of the JACK driver: to floats, through 32 bits or through 16. */
  function JackMask(f: Format, le: bool): Mask {
    if FormatBytes(f) == 4 then ToS32Mask(f, le).value else ToS16Mask(f, le)
  }

  function JackFloat(f: Format): FloatOp { if FormatBytes(f) == 4 then S32ToFloat else S16ToFloat }

  /** For JACK these are the one-byte formats: floats are four times their size, and the buffer only twice. */
  lemma JackInsideIff(f: Format, le: bool, bytes: nat)
    ensures ScratchExtent(f, JackMask(f, le), JackFloat(f), le, bytes).writeTo <= 2 * bytes
            <==> FormatBytes(f) != 1 || bytes == 0
    ensures ScratchExtent(f, JackMask(f, le), JackFloat(f), le, bytes).readTo <= 2 * bytes
            <==> FormatBytes(f) != 1 || bytes == 0
  {
    if FormatBytes(f) == 4 {
      S32MaskBits(f, le);
    } else {
      S16MaskBits(f, le);
    }
    ScratchInsideIff(f, JackMask(f, le), JackFloat(f), le, bytes);
  }

  /** One unsigned byte: two bytes of scratch, four written. */
  lemma OneByteWritesOutside()
    ensures ScratchExtent(U8, JackMask(U8, true), JackFloat(U8), true, 1).writeTo > 2
  {
    JackInsideIff(U8, true, 1);
  }
}
