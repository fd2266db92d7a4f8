/**
 The A-law and mu-law tables of src/audio.c against the expansion rules of ITU-T G.711, section 3
 (tables 1 and 2), scaled to 16 bits as the tables are. A code is split into its two four-bit halves.
 */
module G711 {
  import opened Bytes

  function Pick(i: nat, a0: int, a1: int, a2: int, a3: int, a4: int, a5: int, a6: int, a7: int,
                b0: int, b1: int, b2: int, b3: int, b4: int, b5: int, b6: int, b7: int): int {
    match i
    case 0 => a0 case 1 => a1 case 2 => a2 case 3 => a3 case 4 => a4 case 5 => a5 case 6 => a6 case 7 => a7
    case 8 => b0 case 9 => b1 case 10 => b2 case 11 => b3 case 12 => b4 case 13 => b5 case 14 => b6 case _ => b7
  }

  /** ALAWTable, two source rows at a time. */
  function AlawEntry(hi: nat, lo: nat): int {
    match hi
    case 0 =>
      Pick(lo, -5504, -5248, -6016, -5760, -4480, -4224, -4992, -4736,
           -7552, -7296, -8064, -7808, -6528, -6272, -7040, -6784)
    case 1 =>
      Pick(lo, -2752, -2624, -3008, -2880, -2240, -2112, -2496, -2368,
           -3776, -3648, -4032, -3904, -3264, -3136, -3520, -3392)
    case 2 =>
      Pick(lo, -22016, -20992, -24064, -23040, -17920, -16896, -19968, -18944,
           -30208, -29184, -32256, -31232, -26112, -25088, -28160, -27136)
    case 3 =>
      Pick(lo, -11008, -10496, -12032, -11520, -8960, -8448, -9984, -9472,
           -15104, -14592, -16128, -15616, -13056, -12544, -14080, -13568)
    case 4 =>
      Pick(lo, -344, -328, -376, -360, -280, -264, -312, -296,
           -472, -456, -504, -488, -408, -392, -440, -424)
    case 5 =>
      Pick(lo, -88, -72, -120, -104, -24, -8, -56, -40,
           -216, -200, -248, -232, -152, -136, -184, -168)
    case 6 =>
      Pick(lo, -1376, -1312, -1504, -1440, -1120, -1056, -1248, -1184,
           -1888, -1824, -2016, -1952, -1632, -1568, -1760, -1696)
    case 7 =>
      Pick(lo, -688, -656, -752, -720, -560, -528, -624, -592,
           -944, -912, -1008, -976, -816, -784, -880, -848)
    case 8 =>
      Pick(lo, 5504, 5248, 6016, 5760, 4480, 4224, 4992, 4736,
           7552, 7296, 8064, 7808, 6528, 6272, 7040, 6784)
    case 9 =>
      Pick(lo, 2752, 2624, 3008, 2880, 2240, 2112, 2496, 2368,
           3776, 3648, 4032, 3904, 3264, 3136, 3520, 3392)
    case 10 =>
      Pick(lo, 22016, 20992, 24064, 23040, 17920, 16896, 19968, 18944,
           30208, 29184, 32256, 31232, 26112, 25088, 28160, 27136)
    case 11 =>
      Pick(lo, 11008, 10496, 12032, 11520, 8960, 8448, 9984, 9472,
           15104, 14592, 16128, 15616, 13056, 12544, 14080, 13568)
    case 12 =>
      Pick(lo, 344, 328, 376, 360, 280, 264, 312, 296,
           472, 456, 504, 488, 408, 392, 440, 424)
    case 13 =>
      Pick(lo, 88, 72, 120, 104, 24, 8, 56, 40,
           216, 200, 248, 232, 152, 136, 184, 168)
    case 14 =>
      Pick(lo, 1376, 1312, 1504, 1440, 1120, 1056, 1248, 1184,
           1888, 1824, 2016, 1952, 1632, 1568, 1760, 1696)
    case _ =>
      Pick(lo, 688, 656, 752, 720, 560, 528, 624, 592,
           944, 912, 1008, 976, 816, 784, 880, 848)
  }

  /** MULAWTable. */
  function MulawEntry(hi: nat, lo: nat): int {
    match hi
    case 0 =>
      Pick(lo, -32124, -31100, -30076, -29052, -28028, -27004, -25980, -24956,
           -23932, -22908, -21884, -20860, -19836, -18812, -17788, -16764)
    case 1 =>
      Pick(lo, -15996, -15484, -14972, -14460, -13948, -13436, -12924, -12412,
           -11900, -11388, -10876, -10364, -9852, -9340, -8828, -8316)
    case 2 =>
      Pick(lo, -7932, -7676, -7420, -7164, -6908, -6652, -6396, -6140,
           -5884, -5628, -5372, -5116, -4860, -4604, -4348, -4092)
    case 3 =>
      Pick(lo, -3900, -3772, -3644, -3516, -3388, -3260, -3132, -3004,
           -2876, -2748, -2620, -2492, -2364, -2236, -2108, -1980)
    case 4 =>
      Pick(lo, -1884, -1820, -1756, -1692, -1628, -1564, -1500, -1436,
           -1372, -1308, -1244, -1180, -1116, -1052, -988, -924)
    case 5 =>
      Pick(lo, -876, -844, -812, -780, -748, -716, -684, -652,
           -620, -588, -556, -524, -492, -460, -428, -396)
    case 6 =>
      Pick(lo, -372, -356, -340, -324, -308, -292, -276, -260,
           -244, -228, -212, -196, -180, -164, -148, -132)
    case 7 =>
      Pick(lo, -120, -112, -104, -96, -88, -80, -72, -64,
           -56, -48, -40, -32, -24, -16, -8, 0)
    case 8 =>
      Pick(lo, 32124, 31100, 30076, 29052, 28028, 27004, 25980, 24956,
           23932, 22908, 21884, 20860, 19836, 18812, 17788, 16764)
    case 9 =>
      Pick(lo, 15996, 15484, 14972, 14460, 13948, 13436, 12924, 12412,
           11900, 11388, 10876, 10364, 9852, 9340, 8828, 8316)
    case 10 =>
      Pick(lo, 7932, 7676, 7420, 7164, 6908, 6652, 6396, 6140,
           5884, 5628, 5372, 5116, 4860, 4604, 4348, 4092)
    case 11 =>
      Pick(lo, 3900, 3772, 3644, 3516, 3388, 3260, 3132, 3004,
           2876, 2748, 2620, 2492, 2364, 2236, 2108, 1980)
    case 12 =>
      Pick(lo, 1884, 1820, 1756, 1692, 1628, 1564, 1500, 1436,
           1372, 1308, 1244, 1180, 1116, 1052, 988, 924)
    case 13 =>
      Pick(lo, 876, 844, 812, 780, 748, 716, 684, 652,
           620, 588, 556, 524, 492, 460, 428, 396)
    case 14 =>
      Pick(lo, 372, 356, 340, 324, 308, 292, 276, 260,
           244, 228, 212, 196, 180, 164, 148, 132)
    case _ =>
      Pick(lo, 120, 112, 104, 96, 88, 80, 72, 64,
           56, 48, 40, 32, 24, 16, 8, 0)
  }

  function AlawTable(code: Byte): int { AlawEntry(code / 16, code % 16) }

  function MulawTable(code: Byte): int { MulawEntry(code / 16, code % 16) }

  /** `x` shifted left by `n` bits, n at most 7. */
  function Shift(x: int, n: nat): int {
    match n
    case 0 => x
    case 1 => x * 2
    case 2 => x * 4
    case 3 => x * 8
    case 4 => x * 16
    case 5 => x * 32
    case 6 => x * 64
    case _ => x * 128
  }

  /** The four bits of `n` with the even ones inverted, as on an A-law line. */
  function FlipEven(n: nat): int
    requires n < 16
  {
    Pick(n, 5, 4, 7, 6, 1, 0, 3, 2, 13, 12, 15, 14, 9, 8, 11, 10)
  }

  lemma FlipEvenInverts(n: nat)
    requires n < 16
    ensures FlipEven(n) < 16 && FlipEven(FlipEven(n)) == n
    ensures FlipEven(n) % 2 != n % 2 && FlipEven(n) / 4 % 2 != n / 4 % 2
    ensures FlipEven(n) / 2 % 2 == n / 2 % 2 && FlipEven(n) / 8 == n / 8
  {
  }

  /** A-law: sign (set for positive), three bits of segment, four bits of position in the segment. */
  function AlawStep(hi: nat, lo: nat): int
    requires hi < 16 && lo < 16
  {
    var segment, position := FlipEven(hi) % 8, FlipEven(lo);
    var magnitude := if segment == 0 then position * 16 + 8 else Shift(position * 16 + 264, segment - 1);
    if hi >= 8 then magnitude else -magnitude
  }

  /** mu-law: all bits inverted, sign set for negative; the segments start at a bias of 33 steps. */
  function MulawStep(hi: nat, lo: nat): int
    requires hi < 16 && lo < 16
  {
    var magnitude := Shift((15 - lo) * 8 + 132, (15 - hi) % 8) - 132;
    if 15 - hi >= 8 then -magnitude else magnitude
  }

  lemma AlawEntries0(hi: nat, lo: nat)
    requires 0 <= hi < 4 && lo < 16
    ensures AlawEntry(hi, lo) == AlawStep(hi, lo) && -32768 <= AlawEntry(hi, lo) <= 32767
  {
  }

  lemma AlawEntries4(hi: nat, lo: nat)
    requires 4 <= hi < 8 && lo < 16
    ensures AlawEntry(hi, lo) == AlawStep(hi, lo) && -32768 <= AlawEntry(hi, lo) <= 32767
  {
  }

  lemma AlawEntries8(hi: nat, lo: nat)
    requires 8 <= hi < 12 && lo < 16
    ensures AlawEntry(hi, lo) == AlawStep(hi, lo) && -32768 <= AlawEntry(hi, lo) <= 32767
  {
  }

  lemma AlawEntries12(hi: nat, lo: nat)
    requires 12 <= hi < 16 && lo < 16
    ensures AlawEntry(hi, lo) == AlawStep(hi, lo) && -32768 <= AlawEntry(hi, lo) <= 32767
  {
  }

  lemma MulawEntries0(hi: nat, lo: nat)
    requires 0 <= hi < 4 && lo < 16
    ensures MulawEntry(hi, lo) == MulawStep(hi, lo) && -32768 <= MulawEntry(hi, lo) <= 32767
  {
  }

  lemma MulawEntries4(hi: nat, lo: nat)
    requires 4 <= hi < 8 && lo < 16
    ensures MulawEntry(hi, lo) == MulawStep(hi, lo) && -32768 <= MulawEntry(hi, lo) <= 32767
  {
  }

  lemma MulawEntries8(hi: nat, lo: nat)
    requires 8 <= hi < 12 && lo < 16
    ensures MulawEntry(hi, lo) == MulawStep(hi, lo) && -32768 <= MulawEntry(hi, lo) <= 32767
  {
  }

  lemma MulawEntries12(hi: nat, lo: nat)
    requires 12 <= hi < 16 && lo < 16
    ensures MulawEntry(hi, lo) == MulawStep(hi, lo) && -32768 <= MulawEntry(hi, lo) <= 32767
  {
  }

  lemma AlawTableIsG711(code: Byte)
    ensures AlawTable(code) == AlawStep(code / 16, code % 16)
    ensures -32768 <= AlawTable(code) <= 32767
  {
    if code < 64 {
      AlawEntries0(code / 16, code % 16);
    } else if code < 128 {
      AlawEntries4(code / 16, code % 16);
    } else if code < 192 {
      AlawEntries8(code / 16, code % 16);
    } else {
      AlawEntries12(code / 16, code % 16);
    }
  }

  lemma MulawTableIsG711(code: Byte)
    ensures MulawTable(code) == MulawStep(code / 16, code % 16)
    ensures -32768 <= MulawTable(code) <= 32767
  {
    if code < 64 {
      MulawEntries0(code / 16, code % 16);
    } else if code < 128 {
      MulawEntries4(code / 16, code % 16);
    } else if code < 192 {
      MulawEntries8(code / 16, code % 16);
    } else {
      MulawEntries12(code / 16, code % 16);
    }
  }
}
