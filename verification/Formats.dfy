/** Sample formats, words in host byte order, and what one stored sample means. */
module Formats {
  import opened Bytes
  import opened G711

  /** The formats of the server (enum rsd_format in src/audio.h), RSD_UNSPEC aside. */
  datatype Format =
    | S16Le | S16Be | U16Le | U16Be | U8 | S8 | Alaw | Mulaw | S32Le | S32Be | U32Le | U32Be

  /** rsnd_format_to_bytes. */
  function FormatBytes(f: Format): nat {
    if f.S32Le? || f.S32Be? || f.U32Le? || f.U32Be? then 4
    else if f.S16Le? || f.S16Be? || f.U16Le? || f.U16Be? then 2
    else 1
  }

  predicate BigEndian(f: Format) { f.S16Be? || f.U16Be? || f.S32Be? || f.U32Be? }

  predicate Unsigned(f: Format) { f.U8? || f.U16Le? || f.U16Be? || f.U32Le? || f.U32Be? }

  // ----- words: `le` is the byte order they are stored in -----

  function Get16(le: bool, b: seq<Byte>): nat
    requires |b| == 2
  {
    var b0: int, b1: int := b[0], b[1];
    if le then b0 + 256 * b1 else b1 + 256 * b0
  }

  /** The number a string of bytes is, the least significant one first. */
  function Little(b: seq<Byte>): nat { if b == [] then 0 else b[0] + 256 * Little(b[1..]) }

  function Reversed(b: seq<Byte>): (r: seq<Byte>)
    ensures |r| == |b| && forall i :: 0 <= i < |b| ==> r[i] == b[|b| - 1 - i]
  {
    seq(|b|, i requires 0 <= i < |b| => b[|b| - 1 - i])
  }

  /** Stored little-endian a word is that number, big-endian that of the bytes in reverse. */
  lemma WordValue(b: seq<Byte>)
    ensures |b| == 2 ==> Get16(true, b) == Little(b) && Get16(false, b) == Little(Reversed(b))
    ensures |b| == 4 ==> Get32(true, b) == Little(b) && Get32(false, b) == Little(Reversed(b))
  {
    if |b| == 2 {
      TwoBytes(b);
      TwoBytes(Reversed(b));
    } else if |b| == 4 {
      FourBytes(b);
      FourBytes(Reversed(b));
    }
  }

  lemma TwoBytes(b: seq<Byte>)
    requires |b| == 2
    ensures Little(b) == Get16(true, b)
  {
    var rest := b[1..];
    assert rest[1..] == [] && rest[0] == b[1];
    assert Little(rest) == b[1] + 256 * Little([]);
  }

  lemma FourBytes(b: seq<Byte>)
    requires |b| == 4
    ensures Little(b) == Get16(true, b[..2]) + 0x1_0000 * Get16(true, b[2..])
  {
    var rest, high := b[1..], b[2..];
    assert rest[1..] == high && rest[0] == b[1] && high[0] == b[2] && high[1] == b[3];
    TwoBytes(high);
    assert Little(rest) == b[1] + 256 * Little(high);
  }

  function Put16(le: bool, v: nat): (b: seq<Byte>)
    requires v < 0x1_0000
    ensures |b| == 2
  {
    if le then [v % 256, v / 256] else [v / 256, v % 256]
  }

  function Get32(le: bool, b: seq<Byte>): nat
    requires |b| == 4
  {
    var h0: int, h1: int := Get16(le, b[..2]), Get16(le, b[2..]);
    if le then h0 + 0x1_0000 * h1 else h1 + 0x1_0000 * h0
  }

  function Put32(le: bool, v: nat): (b: seq<Byte>)
    requires v < 0x1_0000_0000
    ensures |b| == 4
  {
    var low, high := Put16(le, v % 0x1_0000), Put16(le, v / 0x1_0000);
    if le then low + high else high + low
  }

  lemma Get16Put16(le: bool, v: nat)
    requires v < 0x1_0000
    ensures Get16(le, Put16(le, v)) == v
  {
  }

  lemma Put16Get16(le: bool, b: seq<Byte>)
    requires |b| == 2
    ensures Get16(le, b) < 0x1_0000 && Put16(le, Get16(le, b)) == b
  {
  }

  lemma Get32Put32(le: bool, v: nat)
    requires v < 0x1_0000_0000
    ensures Get32(le, Put32(le, v)) == v
  {
    Get16Put16(le, v % 0x1_0000);
    Get16Put16(le, v / 0x1_0000);
    var b := Put32(le, v);
    if le {
      assert b[..2] == Put16(le, v % 0x1_0000) && b[2..] == Put16(le, v / 0x1_0000);
    } else {
      assert b[2..] == Put16(le, v % 0x1_0000) && b[..2] == Put16(le, v / 0x1_0000);
    }
  }

  lemma Put32Get32(le: bool, b: seq<Byte>)
    requires |b| == 4
    ensures Get32(le, b) < 0x1_0000_0000 && Put32(le, Get32(le, b)) == b
  {
    Put16Get16(le, b[..2]);
    Put16Get16(le, b[2..]);
    assert b == b[..2] + b[2..];
    if le {
      Halves(Get16(le, b[..2]), Get16(le, b[2..]));
    } else {
      Halves(Get16(le, b[2..]), Get16(le, b[..2]));
    }
  }

  lemma Halves(low: nat, high: nat)
    requires low < 0x1_0000 && high < 0x1_0000
    ensures (low + 0x1_0000 * high) % 0x1_0000 == low && (low + 0x1_0000 * high) / 0x1_0000 == high
    ensures low + 0x1_0000 * high < 0x1_0000_0000
  {
  }

  /** The modulus of a word of 1, 2 or 4 bytes. */
  function Modulus(bytes: nat): nat { if bytes == 1 then 0x100 else if bytes == 2 then 0x1_0000 else 0x1_0000_0000 }

  /** Two's complement of such a word, and back. */
  function Signed(u: nat, bytes: nat): int
  {
    if u < Modulus(bytes) / 2 then u else u - Modulus(bytes)
  }

  function Wrap(v: int, bytes: nat): nat { v % Modulus(bytes) }

  // ----- the meaning of a sample -----

  /** The number a stored sample stands for: linear formats centred on zero, G.711 codes expanded. */
  function Meaning(f: Format, b: seq<Byte>): int
    requires |b| == FormatBytes(f)
  {
    if f.Alaw? then AlawStep(b[0] / 16, b[0] % 16)
    else if f.Mulaw? then MulawStep(b[0] / 16, b[0] % 16)
    else
      var w := FormatBytes(f);
      var u := if w == 1 then b[0] else if w == 2 then Get16(!BigEndian(f), b) else Get32(!BigEndian(f), b);
      if Unsigned(f) then u - Modulus(w) / 2 else Signed(u, w)
  }

  /** The same number on a 16-bit scale: 8-bit samples fill the upper byte, 32-bit ones lose the lower half. */
  function To16(f: Format, m: int): int {
    if f.U8? || f.S8? then m * 256 else if FormatBytes(f) == 4 then m / 0x1_0000 else m
  }

  /** A linear sample keeps its place on its scale: rounded down, it is the same part of 16 bits. */
  lemma ScaleKept(f: Format, m: int)
    requires !f.Alaw? && !f.Mulaw?
    ensures To16(f, m) * Modulus(FormatBytes(f)) <= m * 0x1_0000 < (To16(f, m) + 1) * Modulus(FormatBytes(f))
  {
  }

  /** The reference conversion of one sample to 16 and to 32 bits in the byte order of the host. */
  function Ref16(f: Format, le: bool, b: seq<Byte>): seq<Byte>
    requires |b| == FormatBytes(f)
  {
    Put16(le, Wrap(To16(f, Meaning(f, b)), 2))
  }

  function Ref32(f: Format, le: bool, b: seq<Byte>): seq<Byte>
    requires |b| == FormatBytes(f)
  {
    Put32(le, Wrap(Meaning(f, b), 4))
  }

  /** A meaning is a number of the format's width. */
  lemma MeaningRange(f: Format, b: seq<Byte>)
    requires |b| == FormatBytes(f)
    ensures FormatBytes(f) == 1 && !f.Alaw? && !f.Mulaw? ==> -128 <= Meaning(f, b) < 128
    ensures FormatBytes(f) == 2 || f.Alaw? || f.Mulaw? ==> -0x8000 <= Meaning(f, b) < 0x8000
    ensures FormatBytes(f) == 4 ==> -0x8000_0000 <= Meaning(f, b) < 0x8000_0000
  {
    if f.Alaw? {
      AlawTableIsG711(b[0]);
    } else if f.Mulaw? {
      MulawTableIsG711(b[0]);
    } else if FormatBytes(f) == 2 {
      Put16Get16(!BigEndian(f), b);
    } else if FormatBytes(f) == 4 {
      Put32Get32(!BigEndian(f), b);
    }
  }

  lemma SignedWrap(v: int, bytes: nat)
    requires bytes == 2 || bytes == 4
    requires -(Modulus(bytes) / 2) <= v < Modulus(bytes) / 2
    ensures Signed(Wrap(v, bytes), bytes) == v
  {
  }

  /** The converted sample reads back as the meaning of the original: the reference loses nothing else. */
  lemma Ref16Meaning(f: Format, le: bool, b: seq<Byte>)
    requires |b| == FormatBytes(f)
    ensures Signed(Get16(le, Ref16(f, le, b)), 2) == To16(f, Meaning(f, b))
  {
    MeaningRange(f, b);
    var v := To16(f, Meaning(f, b));
    assert -0x8000 <= v < 0x8000;
    SignedWrap(v, 2);
    Get16Put16(le, Wrap(v, 2));
  }

  lemma Ref32Meaning(f: Format, le: bool, b: seq<Byte>)
    requires |b| == FormatBytes(f) == 4
    ensures Signed(Get32(le, Ref32(f, le, b)), 4) == Meaning(f, b)
  {
    MeaningRange(f, b);
    SignedWrap(Meaning(f, b), 4);
    Get32Put32(le, Wrap(Meaning(f, b), 4));
  }
}
