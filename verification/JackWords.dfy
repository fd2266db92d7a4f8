/** Float samples as four bytes, the rows write_buffer sorts them into, and the bytes it hands to each ring. */
module JackWords {
  import opened Bytes

  /** One jack_default_audio_sample_t; its bytes are all the rings know of it. */
  datatype Word = Word(b0: Byte, b1: Byte, b2: Byte, b3: Byte)

  function WordBytes(w: Word): (b: seq<Byte>)
    ensures |b| == 4
  {
    [w.b0, w.b1, w.b2, w.b3]
  }

  function Flat(ws: seq<Word>): (b: seq<Byte>)
    ensures |b| == 4 * |ws|
  {
    if ws == [] then [] else WordBytes(ws[0]) + Flat(ws[1..])
  }

  /** The whole words at the front of `b`. */
  function Words(b: seq<Byte>): (ws: seq<Word>)
    ensures |ws| == |b| / 4
  {
    if |b| < 4 then [] else [Word(b[0], b[1], b[2], b[3])] + Words(b[4..])
  }

  lemma {:induction false} FlatAppend(v: seq<Word>, w: seq<Word>)
    ensures Flat(v + w) == Flat(v) + Flat(w)
  {
    if v == [] {
      assert v + w == w;
    } else {
      assert (v + w)[1..] == v[1..] + w;
      FlatAppend(v[1..], w);
    }
  }

  lemma {:induction false} FlatWords(b: seq<Byte>)
    requires |b| % 4 == 0
    ensures Flat(Words(b)) == b
  {
    if b != [] {
      FlatWords(b[4..]);
      assert Words(b)[1..] == Words(b[4..]);
      assert b == b[..4] + b[4..];
    }
  }

  /** Word `k` of a flattened sequence. */
  lemma {:induction false} FlatAt(ws: seq<Word>, k: nat)
    requires k < |ws|
    ensures Flat(ws)[4 * k..4 * k + 4] == WordBytes(ws[k])
  {
    var rest := Flat(ws[1..]);
    assert Flat(ws) == WordBytes(ws[0]) + rest;
    if k > 0 {
      FlatAt(ws[1..], k - 1);
      assert Flat(ws)[4 * k..4 * k + 4] == rest[4 * (k - 1)..4 * (k - 1) + 4];
    }
  }

  /** Where two flattened sequences agree, so do their words. */
  lemma SameWord(v: seq<Word>, w: seq<Word>, k: nat)
    requires k < |v| && k < |w| && Flat(v)[4 * k..4 * k + 4] == Flat(w)[4 * k..4 * k + 4]
    ensures v[k] == w[k]
  {
    FlatAt(v, k);
    FlatAt(w, k);
    var a, b := WordBytes(v[k]), WordBytes(w[k]);
    assert a[0] == b[0] && a[1] == b[1] && a[2] == b[2] && a[3] == b[3];
  }

  // ----- rows -----

  lemma TimesOrder(a: int, b: int, m: nat)
    ensures a <= b ==> a * m <= b * m
  {
  }

  lemma DropFrame(n: nat, m: nat)
    requires n >= m > 0
    ensures (n - m) % m == n % m && n / m >= 1 && (n - m) / m == n / m - 1
  {
    TimesOrder(n / m, 0, m);
    assert n == n / m * m + n % m;
    assert n - m == (n / m - 1) * m + n % m;
    DivModUnique(n - m, n / m - 1, n % m, m);
  }

  lemma NoFrame(n: nat, m: nat)
    requires n < m
    ensures n / m == 0 && n % m == n
  {
    DivModUnique(n, 0, n, m);
  }

  /** Row `c` of the deinterleaved array: a sample for every whole frame of the block, and none for a broken one. */
  function Channel(samples: seq<Word>, channels: nat, c: nat): (r: seq<Word>)
    requires c < channels
    ensures |r| == |samples| / channels
    decreases |samples|
  {
    if |samples| < channels then
      NoFrame(|samples|, channels);
      []
    else
      DropFrame(|samples|, channels);
      [samples[c]] + Channel(samples[channels..], channels, c)
  }

  lemma FrameBefore(k: nat, channels: nat)
    ensures k * channels == (k - 1) * channels + channels
    ensures k == 0 ==> k * channels == 0
  {
  }

  lemma FrameIndex(n: nat, m: nat, k: nat, c: nat)
    requires c < m && k < n / m
    ensures 0 <= k * m + c < n
  {
    var q: nat :| q == n / m;
    assert n == q * m + n % m;
    TimesOrder(k + 1, q, m);
    FrameBefore(k + 1, m);
  }

  /** Sample `k` of row `c` is interleaved sample `k * channels + c`. */
  lemma {:induction false} ChannelAt(samples: seq<Word>, channels: nat, c: nat, k: nat)
    requires c < channels && k < |samples| / channels
    ensures 0 <= k * channels + c < |samples|
    ensures Channel(samples, channels, c)[k] == samples[k * channels + c]
    decreases |samples|
  {
    FrameIndex(|samples|, channels, k, c);
    FrameBefore(k, channels);
    if |samples| >= channels {
      DropFrame(|samples|, channels);
      if k > 0 {
        ChannelAt(samples[channels..], channels, c, k - 1);
      }
    } else {
      NoFrame(|samples|, channels);
    }
  }

  lemma {:induction false} ChannelAppend(s: seq<Word>, t: seq<Word>, channels: nat, c: nat)
    requires c < channels && |s| % channels == 0
    ensures Channel(s + t, channels, c) == Channel(s, channels, c) + Channel(t, channels, c)
    decreases |s|
  {
    if s == [] {
      assert s + t == t;
      NoFrame(0, channels);
    } else {
      if |s| < channels { NoFrame(|s|, channels); }
      DropFrame(|s|, channels);
      assert (s + t)[channels..] == s[channels..] + t && (s + t)[c] == s[c];
      ChannelAppend(s[channels..], t, channels, c);
    }
  }

  /** The two nested loops of write_buffer: row `c` of the array becomes channel `c` of the block. */
  method Deinterleave(block: array<Word>, channels: nat) returns (out: array2<Word>)
    requires channels > 0
    ensures fresh(out) && out.Length0 == channels && out.Length1 == block.Length / channels
    ensures forall c: nat, k: nat :: c < channels && k < out.Length1 ==> out[c, k] == Channel(block[..], channels, c)[k]
  {
    out := new Word[channels, block.Length / channels]((i, j) => Word(0, 0, 0, 0));
    var i := 0;
    while i < channels
      invariant i <= channels
      invariant forall c: nat, k: nat :: c < i && k < out.Length1 ==> out[c, k] == Channel(block[..], channels, c)[k]
    {
      var j := 0;
      while j < out.Length1
        invariant j <= out.Length1
        invariant forall c: nat, k: nat :: c < i && k < out.Length1 ==> out[c, k] == Channel(block[..], channels, c)[k]
        invariant forall k: nat :: k < j ==> out[i, k] == Channel(block[..], channels, i)[k]
      {
        ChannelAt(block[..], channels, i, j);
        out[i, j] := block[j * channels + i];
        j := j + 1;
      }
      i := i + 1;
    }
  }

  // ----- what a ring is given -----

  /** The samples of one call, and what memory holds behind the deinterleaved array. */
  datatype Block = Block(samples: seq<Word>, beyond: seq<Byte>)

  /** The bytes write_buffer looks for and writes on each channel. */
  function ByteCount(n: nat, channels: nat): nat
    requires channels > 0
  {
    4 * n / channels
  }

  /** The array from row `c` on, as it lies in memory. */
  function RowsFrom(samples: seq<Word>, channels: nat, c: nat): seq<Byte>
    requires c <= channels
    decreases channels - c
  {
    if c == channels then [] else Flat(Channel(samples, channels, c)) + RowsFrom(samples, channels, c + 1)
  }

  /** What the write of channel `c` takes: from the start of its row, as many bytes as it counts. */
  function Sent(block: Block, channels: nat, c: nat): seq<Byte>
    requires c < channels
  {
    var memory := RowsFrom(block.samples, channels, c) + block.beyond;
    memory[..Min(ByteCount(|block.samples|, channels), |memory|)]
  }

  /** The count is the row, and the share of a broken frame in bytes. */
  lemma ByteCountSplit(n: nat, channels: nat)
    requires channels > 0
    ensures ByteCount(n, channels) == 4 * (n / channels) + 4 * (n % channels) / channels
    ensures 0 <= 4 * (n % channels) / channels <= 3
    ensures 4 * (n % channels) / channels == 0 <==> 4 * (n % channels) < channels
  {
    var q, r := n / channels, n % channels;
    var e, f := 4 * r / channels, 4 * r % channels;
    ShareBound(e, f, r, channels);
    JoinCounts(q, r, e, f, channels);
    assert n == q * channels + r;
  }

  lemma ShareBound(e: nat, f: nat, r: nat, m: nat)
    requires r < m && f < m && 4 * r == e * m + f
    ensures e <= 3 && (e == 0 <==> 4 * r < m)
  {
    TimesOrder(4, e, m);
    TimesOrder(1, e, m);
  }

  lemma JoinCounts(q: nat, r: nat, e: nat, f: nat, m: nat)
    requires m > 0 && 4 * r == e * m + f && f < m
    ensures 4 * (q * m + r) / m == 4 * q + e
  {
    assert (4 * q + e) * m == 4 * (q * m) + e * m;
    DivModUnique(4 * (q * m + r), 4 * q + e, f, m);
  }

  /** A write stays inside its row exactly when the broken frame's share is less than a byte. */
  lemma RowWriteInsideIff(n: nat, channels: nat)
    requires channels > 0
    ensures ByteCount(n, channels) <= 4 * (n / channels) <==> 4 * (n % channels) < channels
  {
    ByteCountSplit(n, channels);
  }

  lemma SentLength(block: Block, channels: nat, c: nat)
    requires c < channels && |block.beyond| >= 3
    ensures |Sent(block, channels, c)| == ByteCount(|block.samples|, channels)
  {
    ByteCountSplit(|block.samples|, channels);
  }

  /** A block of whole frames gives every ring its row and nothing else. */
  lemma SentWhole(block: Block, channels: nat, c: nat)
    requires c < channels && |block.samples| % channels == 0
    ensures Sent(block, channels, c) == Flat(Channel(block.samples, channels, c))
  {
    ByteCountSplit(|block.samples|, channels);
  }
}
