/** The 44-byte header the client sends first, and what the server reads from it. */
module WavHeader {
  import opened Bytes
  import opened Formats

  /** enum rsd_format of the client: the server's formats plus four that follow the client's byte order. */
  datatype ClientFormat = Plain(f: Format) | S16Ne | U16Ne | S32Ne | U32Ne

  function Code(f: Format): nat {
    match f
    case S16Le => 0x0001 case S16Be => 0x0002 case U16Le => 0x0004 case U16Be => 0x0008
    case U8 => 0x0010 case S8 => 0x0020
    case Alaw => 0x0100 case Mulaw => 0x0200
    case S32Le => 0x0400 case S32Be => 0x0800 case U32Le => 0x2000 case U32Be => 0x4000
  }

  /** The format the samples are really in when the client runs on a host of byte order `le`. */
  function Resolve(cf: ClientFormat, le: bool): Format {
    match cf
    case Plain(f) => f
    case S16Ne => if le then S16Le else S16Be
    case U16Ne => if le then U16Le else U16Be
    case S32Ne => if le then S32Le else S32Be
    case U32Ne => if le then U32Le else U32Be
  }

  /** The PCM tag is chosen by the format as set, before an alias is resolved. */
  function PcmTag(cf: ClientFormat): nat {
    match cf
    case Plain(f) => (match f case S16Le => 1 case U8 => 1 case Alaw => 6 case Mulaw => 7 case _ => 0)
    case _ => 0
  }

  // ----- byte order on the wire -----

  function Swapped16(x: nat): (r: nat)
    requires x < 0x1_0000
    ensures r < 0x1_0000
  {
    x % 256 * 256 + x / 256
  }

  function Swapped32(x: nat): (r: nat)
    requires x < 0x1_0000_0000
    ensures r < 0x1_0000_0000
  {
    Swapped16(x % 0x1_0000) * 0x1_0000 + Swapped16(x / 0x1_0000)
  }

  /** LSB16, LSB32: the host value whose bytes in memory are little-endian. */
  function Lsb16(le: bool, x: nat): (r: nat)
    requires x < 0x1_0000
    ensures r < 0x1_0000
  {
    if le then x else Swapped16(x)
  }

  function Lsb32(le: bool, x: nat): (r: nat)
    requires x < 0x1_0000_0000
    ensures r < 0x1_0000_0000
  {
    if le then x else Swapped32(x)
  }

  /** Stored by any host, a field is little-endian on the wire. */
  lemma StoredLittle(le: bool, x: nat)
    ensures x < 0x1_0000 ==> Put16(le, Lsb16(le, x)) == Put16(true, x)
    ensures x < 0x1_0000_0000 ==> Put32(le, Lsb32(le, x)) == Put32(true, x)
  {
    if x < 0x1_0000_0000 && !le {
      var low, high := x % 0x1_0000, x / 0x1_0000;
      Halves(Swapped16(high), Swapped16(low));
      assert Put16(false, Swapped16(low)) == Put16(true, low);
      assert Put16(false, Swapped16(high)) == Put16(true, high);
    }
  }

  /** Read by any host, a little-endian field is its value. */
  lemma ReadLittle(le: bool, x: nat)
    ensures x < 0x1_0000 ==> Get16(le, Put16(true, x)) < 0x1_0000 && Lsb16(le, Get16(le, Put16(true, x))) == x
    ensures x < 0x1_0000_0000 ==> Get32(le, Put32(true, x)) < 0x1_0000_0000 && Lsb32(le, Get32(le, Put32(true, x))) == x
  {
    StoredLittle(le, x);
    if x < 0x1_0000 { Get16Put16(le, Lsb16(le, x)); }
    if x < 0x1_0000_0000 { Get32Put32(le, Lsb32(le, x)); }
    if x < 0x1_0000 { Swapped16Twice(x); }
    if x < 0x1_0000_0000 { Swapped32Twice(x); }
  }

  lemma Swapped16Twice(x: nat)
    requires x < 0x1_0000
    ensures Swapped16(Swapped16(x)) == x
  {
    DivModUnique(Swapped16(x), x % 256, x / 256, 256);
  }

  lemma Swapped32Twice(x: nat)
    requires x < 0x1_0000_0000
    ensures Swapped32(Swapped32(x)) == x
  {
    var low, high := x % 0x1_0000, x / 0x1_0000;
    var low', high' := Swapped16(low), Swapped16(high);
    Halves(high', low');
    Swapped16Twice(low);
    Swapped16Twice(high);
  }

  // ----- the header as bytes -----

  const RIFF: seq<Byte> := [0x52, 0x49, 0x46, 0x46]
  const WAVE: seq<Byte> := [0x57, 0x41, 0x56, 0x45]
  const FMT: seq<Byte> := [0x66, 0x6D, 0x74, 0x20]
  const DATA: seq<Byte> := [0x64, 0x61, 0x74, 0x61]

  /** The fields of the header that carry information; the chunk sizes are zero. */
  datatype Fields = Fields(
    pcm: nat, channels: nat, rate: nat, byteRate: nat, blockAlign: nat, bits: nat, format: nat)

  predicate Fit(x: Fields) {
    && x.pcm < 0x1_0000 && x.channels < 0x1_0000 && x.rate < 0x1_0000_0000 && x.byteRate < 0x1_0000_0000
    && x.blockAlign < 0x1_0000 && x.bits < 0x1_0000 && x.format < 0x1_0000
  }

  /** What the client puts into them: every value cut to the width of its field. */
  function ClientFields(rate: nat, channels: nat, cf: ClientFormat, le: bool): (x: Fields)
    requires rate < 0x1_0000_0000
    ensures Fit(x)
  {
    var f := Resolve(cf, le);
    var size := FormatBytes(f);
    Fields(PcmTag(cf), channels % 0x1_0000, rate, rate * channels * size % 0x1_0000_0000,
           channels * size % 0x1_0000, 8 * size, Code(f))
  }

  /** The wire image up to and including the sample rate, and all of it. */
  function Front(x: Fields): (h: seq<Byte>)
    requires Fit(x)
    ensures |h| == 28
  {
    RIFF + Put32(true, 0) + WAVE + FMT + Put32(true, 16)
    + Put16(true, x.pcm) + Put16(true, x.channels) + Put32(true, x.rate)
  }

  function Back(x: Fields): (h: seq<Byte>)
    requires Fit(x)
    ensures |h| == 16
  {
    Put32(true, x.byteRate) + Put16(true, x.blockAlign) + Put16(true, x.bits) + DATA + [0, 0] + Put16(true, x.format)
  }

  function Header(x: Fields): (h: seq<Byte>)
    requires Fit(x)
    ensures |h| == 44
  {
    Front(x) + Back(x)
  }

  /** Where the server looks. */
  lemma FieldPositions(x: Fields)
    requires Fit(x)
    ensures Header(x)[20..22] == Put16(true, x.pcm) && Header(x)[22..24] == Put16(true, x.channels)
    ensures Header(x)[24..28] == Put32(true, x.rate)
    ensures Header(x)[28..32] == Put32(true, x.byteRate) && Header(x)[32..34] == Put16(true, x.blockAlign)
    ensures Header(x)[34..36] == Put16(true, x.bits) && Header(x)[42..44] == Put16(true, x.format)
  {
    assert Header(x)[28..32] == Back(x)[0..4] && Header(x)[32..34] == Back(x)[4..6];
    assert Header(x)[20..22] == Front(x)[20..22];
    assert Header(x)[22..24] == Front(x)[22..24];
    assert Header(x)[24..28] == Front(x)[24..28];
    assert Header(x)[34..36] == Back(x)[6..8];
    assert Header(x)[42..44] == Back(x)[14..16];
  }

  // ----- what a header says, by offset -----

  /** `b` is `text` in ASCII. */
  predicate Spells(b: seq<Byte>, text: string) {
    |b| == |text| && forall i :: 0 <= i < |b| ==> b[i] == text[i] as int
  }

  /** The sum over `n` channels of what each takes. */
  function SumOver(n: nat, each: nat): nat { if n == 0 then 0 else each + SumOver(n - 1, each) }

  /** The words of the header and its chunk size. */
  predicate Words(h: seq<Byte>) {
    && |h| == 44
    && Spells(h[0..4], "RIFF") && Spells(h[8..16], "WAVEfmt ") && Spells(h[36..40], "data")
    && Little(h[4..8]) == 0 && Little(h[16..20]) == 16 && Little(h[40..42]) == 0
  }

  /** The figures of a stream of `rate` frames a second and `channels` samples of `width` bytes a frame. */
  predicate Figures(h: seq<Byte>, rate: nat, channels: nat, width: nat) {
    && |h| == 44
    && Little(h[22..24]) == channels % 0x1_0000 && Little(h[24..28]) == rate
    && Little(h[28..32]) == SumOver(channels, rate * width) % 0x1_0000_0000
    && Little(h[32..34]) == SumOver(channels, width) % 0x1_0000
    && Little(h[34..36]) == 8 * width
  }

  /** The tag and the code: U8 and plain S16_LE are PCM, the two laws have their own tags, all others none. */
  predicate Tags(h: seq<Byte>, cf: ClientFormat, le: bool) {
    && |h| == 44 && Little(h[42..44]) == Code(Resolve(cf, le))
    && (Little(h[20..22]) == 1 <==> cf == Plain(S16Le) || cf == Plain(U8))
    && (Little(h[20..22]) == 6 <==> cf == Plain(Alaw))
    && (Little(h[20..22]) == 7 <==> cf == Plain(Mulaw))
    && Little(h[20..22]) in {0, 1, 6, 7}
  }

  lemma {:induction false} SumIsProduct(n: nat, each: nat)
    ensures SumOver(n, each) == n * each
  {
    if n > 0 {
      SumIsProduct(n - 1, each);
      assert n * each == (n - 1) * each + each;
    }
  }

  lemma SumsOfStream(rate: nat, channels: nat, width: nat)
    ensures SumOver(channels, rate * width) == rate * channels * width && SumOver(channels, width) == channels * width
  {
    SumIsProduct(channels, rate * width);
    SumIsProduct(channels, width);
    assert channels * (rate * width) == rate * channels * width;
  }

  lemma Stored16(v: nat)
    requires v < 0x1_0000
    ensures Little(Put16(true, v)) == Get16(true, Put16(true, v)) == v
  {
    Get16Put16(true, v);
    WordValue(Put16(true, v));
  }

  lemma Stored32(v: nat)
    requires v < 0x1_0000_0000
    ensures Little(Put32(true, v)) == Get32(true, Put32(true, v)) == v
  {
    Get32Put32(true, v);
    WordValue(Put32(true, v));
  }

  lemma WordPositions(x: Fields)
    requires Fit(x)
    ensures var h := Header(x);
            && h[0..4] == RIFF && h[8..16] == WAVE + FMT && h[36..40] == DATA
            && h[4..8] == Put32(true, 0) && h[16..20] == Put32(true, 16) && h[40..42] == [0, 0]
  {
    var h := Header(x);
    assert h[0..4] == Front(x)[0..4] == RIFF;
    assert h[8..16] == Front(x)[8..16] == WAVE + FMT;
    assert h[36..40] == Back(x)[8..12] == DATA;
    assert h[4..8] == Front(x)[4..8] == Put32(true, 0);
    assert h[16..20] == Front(x)[16..20] == Put32(true, 16);
    assert h[40..42] == Back(x)[12..14] == [0, 0];
  }

  lemma WordsOfHeader(x: Fields)
    requires Fit(x)
    ensures Words(Header(x))
  {
    WordPositions(x);
    Stored32(0);
    Stored32(16);
    WordValue([0, 0]);
  }

  lemma FrontValues(x: Fields)
    requires Fit(x)
    ensures var h := Header(x);
            && Little(h[20..22]) == Get16(true, h[20..22]) == x.pcm
            && Little(h[22..24]) == Get16(true, h[22..24]) == x.channels
            && Little(h[24..28]) == Get32(true, h[24..28]) == x.rate
  {
    FieldPositions(x);
    Stored16(x.pcm);
    Stored16(x.channels);
    Stored32(x.rate);
  }

  lemma BackValues(x: Fields)
    requires Fit(x)
    ensures var h := Header(x);
            && Little(h[28..32]) == x.byteRate && Little(h[32..34]) == x.blockAlign
            && Little(h[34..36]) == Get16(true, h[34..36]) == x.bits
            && Little(h[42..44]) == Get16(true, h[42..44]) == x.format
  {
    FieldPositions(x);
    Stored32(x.byteRate);
    Stored16(x.blockAlign);
    Stored16(x.bits);
    Stored16(x.format);
  }

  lemma HeaderSays(x: Fields, channels: nat, width: nat, cf: ClientFormat, le: bool)
    requires Fit(x) && x.pcm == PcmTag(cf) && x.format == Code(Resolve(cf, le)) && x.bits == 8 * width
    requires x.channels == channels % 0x1_0000
    requires x.byteRate == SumOver(channels, x.rate * width) % 0x1_0000_0000
    requires x.blockAlign == SumOver(channels, width) % 0x1_0000
    ensures Words(Header(x)) && Tags(Header(x), cf, le) && Figures(Header(x), x.rate, channels, width)
  {
    WordsOfHeader(x);
    FrontValues(x);
    BackValues(x);
  }

  lemma ClientHeaderSays(rate: nat, channels: nat, cf: ClientFormat, le: bool)
    requires rate < 0x1_0000_0000
    ensures var h := Header(ClientFields(rate, channels, cf, le));
            Words(h) && Tags(h, cf, le) && Figures(h, rate, channels, FormatBytes(Resolve(cf, le)))
  {
    SumsOfStream(rate, channels, FormatBytes(Resolve(cf, le)));
    HeaderSays(ClientFields(rate, channels, cf, le), channels, FormatBytes(Resolve(cf, le)), cf, le);
  }

  /** An alias is the format of its width and sign in the byte order of the client, and any other is itself. */
  lemma AliasIsNative(cf: ClientFormat, le: bool)
    ensures cf.Plain? ==> Resolve(cf, le) == cf.f
    ensures !cf.Plain? ==>
              var f := Resolve(cf, le);
              && BigEndian(f) == !le && (Unsigned(f) <==> cf.U16Ne? || cf.U32Ne?)
              && FormatBytes(f) == if cf.S16Ne? || cf.U16Ne? then 2 else 4
  {
  }

  // ----- the client writes it -----

  /** strcpy: the string and its terminator. */
  method Strcpy(a: array<Byte>, at: nat, s: seq<Byte>)
    requires at + |s| < a.Length
    modifies a
    ensures a[..at + |s|] == old(a[..at]) + s
    ensures a[at + |s|] == 0 && forall k :: at + |s| < k < a.Length ==> a[k] == old(a[k])
  {
    CopySeq(a, at, s + [0]);
  }

  /** SET16 of a value that LSB16 made ready. */
  method Set16(a: array<Byte>, at: nat, le: bool, x: nat)
    requires at + 2 <= a.Length && x < 0x1_0000
    modifies a
    ensures a[..at + 2] == old(a[..at]) + Put16(true, x)
    ensures forall k :: at + 2 <= k < a.Length ==> a[k] == old(a[k])
  {
    StoredLittle(le, x);
    CopySeq(a, at, Put16(le, Lsb16(le, x)));
  }

  method Set32(a: array<Byte>, at: nat, le: bool, x: nat)
    requires at + 4 <= a.Length && x < 0x1_0000_0000
    modifies a
    ensures a[..at + 4] == old(a[..at]) + Put32(true, x)
    ensures forall k :: at + 4 <= k < a.Length ==> a[k] == old(a[k])
  {
    StoredLittle(le, x);
    CopySeq(a, at, Put32(le, Lsb32(le, x)));
  }

  method WriteFront(header: array<Byte>, le: bool, x: Fields)
    requires header.Length == 44 && Fit(x)
    modifies header
    ensures header[..28] == Front(x)
    ensures forall k :: 28 <= k < 44 ==> header[k] == old(header[k])
  {
    Strcpy(header, 0, RIFF);
    Set32(header, 4, le, 0);
    Strcpy(header, 8, WAVE);
    Strcpy(header, 12, FMT);
    Set32(header, 16, le, 16);
    Set16(header, 20, le, x.pcm);
    Set16(header, 22, le, x.channels);
    Set32(header, 24, le, x.rate);
  }

  method WriteBack(header: array<Byte>, le: bool, x: Fields)
    requires header.Length == 44 && Fit(x) && header[41] == 0
    modifies header
    ensures header[..] == old(header[..28]) + Back(x)
  {
    Set32(header, 28, le, x.byteRate);
    Set16(header, 32, le, x.blockAlign);
    Set16(header, 34, le, x.bits);
    Strcpy(header, 36, DATA);
    assert header[..42] == header[..40] + [header[40], header[41]];
    Set16(header, 42, le, x.format);
    assert header[..] == header[..44];
  }

  /** rsnd_send_header_info, up to the send. */
  method WriteHeader(rate: nat, channels: nat, cf: ClientFormat, le: bool) returns (header: array<Byte>)
    requires rate < 0x1_0000_0000
    ensures fresh(header) && header[..] == Header(ClientFields(rate, channels, cf, le))
    ensures Words(header[..]) && Tags(header[..], cf, le)
    ensures Figures(header[..], rate, channels, FormatBytes(Resolve(cf, le)))
  {
    ClientHeaderSays(rate, channels, cf, le);
    header := new Byte[44](_ => 0);
    var x := ClientFields(rate, channels, cf, le);
    WriteFront(header, le, x);
    WriteBack(header, le, x);
  }

  // ----- the server reads it -----

  datatype Wav = Wav(channels: nat, rate: nat, bits: nat, format: Format)

  function FromCode(code: nat): (f: Option<Format>)
    ensures f.Some? ==> Code(f.value) == code
  {
    if code == 0x0001 then Some(S16Le) else if code == 0x0002 then Some(S16Be)
    else if code == 0x0004 then Some(U16Le) else if code == 0x0008 then Some(U16Be)
    else if code == 0x0010 then Some(U8) else if code == 0x0020 then Some(S8)
    else if code == 0x0100 then Some(Alaw) else if code == 0x0200 then Some(Mulaw)
    else if code == 0x0400 then Some(S32Le) else if code == 0x0800 then Some(S32Be)
    else if code == 0x2000 then Some(U32Le) else if code == 0x4000 then Some(U32Be)
    else None
  }

  lemma CodesAreDistinct(f: Format)
    ensures FromCode(Code(f)) == Some(f) && Code(f) < 0x1_0000
  {
  }

  /**
   The format the server settles on: a G.711 tag, or an untagged linear format of the right width, or the
   default of the width.
   */
  function ServerFormat(pcm: nat, bits: nat, code: nat): Format {
    if bits == 8 && pcm == 6 then Alaw
    else if bits == 8 && pcm == 7 then Mulaw
    else
      var named := FromCode(code);
      if pcm == 0 && named.Some? && !named.value.Alaw? && !named.value.Mulaw? && bits == 8 * FormatBytes(named.value)
      then named.value
      else if bits == 8 then U8 else S16Le
  }

  predicate Linear(f: Format) { !f.Alaw? && !f.Mulaw? }

  /** A code names a linear format of the width the header gives. */
  ghost predicate Named(code: nat, bits: nat) { exists g :: Code(g) == code && Linear(g) && 8 * FormatBytes(g) == bits }

  /**
   The format of any header: a code is believed under tag 0 with its own width, the tags of the two laws with eight
   bits, and everything else is U8 or S16_LE. So is a header without code, as clients from before the code send it.
   */
  lemma FormatRules(pcm: nat, bits: nat, code: nat)
    ensures var f := ServerFormat(pcm, bits, code);
            && (pcm == 0 && Named(code, bits) ==> Code(f) == code)
            && (bits == 8 && pcm == 6 ==> f == Alaw) && (bits == 8 && pcm == 7 ==> f == Mulaw)
            && (!(pcm == 0 && Named(code, bits)) && !(bits == 8 && (pcm == 6 || pcm == 7)) ==>
                  f == if bits == 8 then U8 else S16Le)
            && (code == 0 && bits == 16 ==> f == S16Le)
  {
    if Named(code, bits) {
      var g :| Code(g) == code && Linear(g) && 8 * FormatBytes(g) == bits;
      CodesAreDistinct(g);
    }
  }

  /** What any host makes of 44 bytes: the fields are little-endian, and rate and width must make sense. */
  function Parsed(h: seq<Byte>): Option<Wav>
    requires |h| == 44
  {
    var bits, rate := Get16(true, h[34..36]), Get32(true, h[24..28]);
    if rate == 0 || rate > 192000 || bits % 8 != 0 || bits == 0 then None
    else Some(Wav(Get16(true, h[22..24]), rate, bits,
                  ServerFormat(Get16(true, h[20..22]), bits, Get16(true, h[42..44]))))
  }

  method Read16(header: array<Byte>, at: nat, le: bool) returns (x: nat)
    requires at + 2 <= header.Length
    ensures x == Get16(true, header[at..at + 2])
  {
    x := Get16(le, header[at..at + 2]);
    Put16Get16(le, header[at..at + 2]);
    if !le {
      x := Swapped16(x);
    }
  }

  method Read32(header: array<Byte>, at: nat, le: bool) returns (x: nat)
    requires at + 4 <= header.Length
    ensures x == Get32(true, header[at..at + 4])
  {
    ghost var b := header[at..at + 4];
    Put32Get32(le, b);
    Put32Get32(true, b);
    ReadLittle(le, Get32(true, b));
    x := Get32(le, header[at..at + 4]);
    if !le {
      x := Swapped32(x);
    }
  }

  /** The two switches of get_wav_header. */
  method SwitchFormat(pcm: nat, bits: nat, code: nat) returns (format: Format)
    ensures format == ServerFormat(pcm, bits, code)
  {
    format := if bits == 8 then U8 else S16Le;
    if pcm == 0 {
      if code == Code(S16Be) {
        if bits == 16 { format := S16Be; }
      } else if code == Code(U16Le) {
        if bits == 16 { format := U16Le; }
      } else if code == Code(U16Be) {
        if bits == 16 { format := U16Be; }
      } else if code == Code(S8) {
        if bits == 8 { format := S8; }
      } else if code == Code(S32Le) {
        if bits == 32 { format := S32Le; }
      } else if code == Code(S32Be) {
        if bits == 32 { format := S32Be; }
      } else if code == Code(U32Le) {
        if bits == 32 { format := U32Le; }
      } else if code == Code(U32Be) {
        if bits == 32 { format := U32Be; }
      }
    } else if pcm == 6 {
      if bits == 8 { format := Alaw; }
    } else if pcm == 7 {
      if bits == 8 { format := Mulaw; }
    }
  }

  /** get_wav_header once the 44 bytes are there. */
  method GetWavHeader(header: array<Byte>, le: bool) returns (r: Option<Wav>)
    requires header.Length == 44
    ensures r == Parsed(header[..])
    ensures r.Some? <==> 1 <= Little(header[24..28]) <= 192000
                         && Little(header[34..36]) > 0 && Little(header[34..36]) % 8 == 0
    ensures r.Some? ==> r.value.channels == Little(header[22..24]) && r.value.rate == Little(header[24..28])
                        && r.value.bits == Little(header[34..36])
  {
    WordValue(header[22..24]);
    WordValue(header[24..28]);
    WordValue(header[34..36]);
    assert header[..][20..22] == header[20..22] && header[..][22..24] == header[22..24];
    assert header[..][24..28] == header[24..28];
    assert header[..][34..36] == header[34..36] && header[..][42..44] == header[42..44];
    var channels := Read16(header, 22, le);
    var rate := Read32(header, 24, le);
    var bits := Read16(header, 34, le);
    var code := Read16(header, 42, le);
    var pcm := Read16(header, 20, le);
    var format := SwitchFormat(pcm, bits, code);
    if rate <= 0 || rate > 192000 || bits % 8 != 0 || bits == 0 {
      return None;
    }
    return Some(Wav(channels, rate, bits, format));
  }

  /**
   * The round trip, for every format and alias and either byte order of the client (the server's is settled above):
   * accepted exactly when the rate is one the server plays; rate, width and resolved format come back as they were.
   */
  lemma HeaderRoundTrip(rate: nat, channels: nat, cf: ClientFormat, le: bool)
    requires rate < 0x1_0000_0000
    ensures var f := Resolve(cf, le);
            Parsed(Header(ClientFields(rate, channels, cf, le)))
            == if 1 <= rate <= 192000 then Some(Wav(channels % 0x1_0000, rate, 8 * FormatBytes(f), f)) else None
  {
    ParsedFields(ClientFields(rate, channels, cf, le));
    FormatSurvives(cf, le);
  }

  lemma ParsedFields(x: Fields)
    requires Fit(x)
    ensures Parsed(Header(x))
         == if x.rate == 0 || x.rate > 192000 || x.bits % 8 != 0 || x.bits == 0 then None
            else Some(Wav(x.channels, x.rate, x.bits, ServerFormat(x.pcm, x.bits, x.format)))
  {
    FrontValues(x);
    BackValues(x);
  }

  lemma FormatSurvives(cf: ClientFormat, le: bool)
    ensures var f := Resolve(cf, le);
            ServerFormat(PcmTag(cf), 8 * FormatBytes(f), Code(f)) == f
  {
    CodesAreDistinct(Resolve(cf, le));
  }

  /** All four values come back exactly when the rate is playable and the channel count fits its 16 bits. */
  lemma RoundTripExactIff(rate: nat, channels: nat, cf: ClientFormat, le: bool)
    requires rate < 0x1_0000_0000
    ensures var f := Resolve(cf, le);
            Parsed(Header(ClientFields(rate, channels, cf, le))) == Some(Wav(channels, rate, 8 * FormatBytes(f), f))
            <==> 1 <= rate <= 192000 && channels < 0x1_0000
  {
    HeaderRoundTrip(rate, channels, cf, le);
  }
}
