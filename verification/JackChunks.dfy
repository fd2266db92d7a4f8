/** Blocks that do not end with a frame: what becomes of the interleaved stream, and exactly when. */
module JackChunks {
  import opened Bytes
  import opened JackWords
  import opened Jack
  import opened JackProgress

  predicate AllOf(bs: seq<Block>, n: nat) { forall i :: 0 <= i < |bs| ==> |bs[i].samples| == n }

  /** Channel `c` of an interleaved stream of any length, the last frame included as far as it goes. */
  function Every(s: seq<Word>, channels: nat, c: nat): seq<Word>
    requires c < channels
    decreases |s|
  {
    if |s| <= c then [] else [s[c]] + if |s| <= channels then [] else Every(s[channels..], channels, c)
  }

  /** What a port has heard and what its ring holds are its channel of the stream. */
  predicate Complete(rig: Rig, s: State)
    requires Shaped(rig, s)
  {
    forall c :: 0 <= c < rig.channels ==>
      Flat(Heard(s.ports[c])) + s.rings[c] == Flat(Every(Stream(s.blocks), rig.channels, c))
  }

  lemma {:induction false} EveryIsChannel(s: seq<Word>, channels: nat, c: nat)
    requires c < channels && |s| % channels == 0
    ensures Every(s, channels, c) == Channel(s, channels, c)
    decreases |s|
  {
    if |s| < channels {
      NoFrame(|s|, channels);
    } else {
      DropFrame(|s|, channels);
      EveryIsChannel(s[channels..], channels, c);
      if |s| == channels {
        assert Channel(s[channels..], channels, c) == [];
      }
    }
  }

  /** Channel 0 has a sample for the broken frame as well. */
  lemma {:induction false} EveryLength(s: seq<Word>, channels: nat)
    requires channels > 0
    ensures |Every(s, channels, 0)| == |s| / channels + if |s| % channels == 0 then 0 else 1
    decreases |s|
  {
    if |s| < channels {
      NoFrame(|s|, channels);
    } else {
      DropFrame(|s|, channels);
      EveryLength(s[channels..], channels);
    }
  }

  // ----- uniform blocks -----

  function Const(w: Word, n: nat): (r: seq<Word>)
    ensures |r| == n
  {
    seq(n, i => w)
  }

  function Uniform(v: Byte): Word { Word(v, v, v, v) }

  /** `n` samples of bytes `v`, in front of memory that holds `u`. */
  function Mixed(n: nat, v: Byte, u: Byte): Block { Block(Const(Uniform(v), n), [u, u, u]) }

  predicate AllBytes(b: seq<Byte>, v: Byte) { forall i :: 0 <= i < |b| ==> b[i] == v }

  lemma {:induction false} FlatUniform(ws: seq<Word>, v: Byte)
    requires forall i :: 0 <= i < |ws| ==> ws[i] == Uniform(v)
    ensures AllBytes(Flat(ws), v)
  {
    if ws != [] { FlatUniform(ws[1..], v); }
  }

  lemma {:induction false} RowsUniform(n: nat, v: Byte, channels: nat, c: nat)
    requires 0 < channels && c <= channels
    ensures AllBytes(RowsFrom(Const(Uniform(v), n), channels, c), v)
    decreases channels - c
  {
    var samples := Const(Uniform(v), n);
    if c < channels {
      forall k | 0 <= k < n / channels ensures Channel(samples, channels, c)[k] == Uniform(v) {
        ChannelAt(samples, channels, c, k);
      }
      FlatUniform(Channel(samples, channels, c), v);
      RowsUniform(n, v, channels, c + 1);
    }
  }

  /** Uniform samples in front of the same bytes: every write is that byte. */
  lemma SentUniform(n: nat, v: Byte, channels: nat)
    requires 0 < channels
    ensures AllBytes(Sent(Mixed(n, v, v), channels, 0), v)
  {
    RowsUniform(n, v, channels, 0);
  }

  /** Less than a frame leaves the array empty: what is sent lies behind it. */
  lemma {:induction false} NoRows(samples: seq<Word>, channels: nat, c: nat)
    requires |samples| < channels && c <= channels
    ensures RowsFrom(samples, channels, c) == []
    decreases channels - c
  {
    if c < channels {
      NoFrame(|samples|, channels);
      NoRows(samples, channels, c + 1);
    }
  }

  lemma SentBeyond(n: nat, v: Byte, u: Byte, channels: nat)
    requires n < channels
    ensures AllBytes(Sent(Mixed(n, v, u), channels, 0), u)
  {
    NoRows(Const(Uniform(v), n), channels, 0);
  }

  // ----- runs that go wrong -----

  predicate Roomy(rig: Rig, n: nat) { rig.channels > 0 && 3 + ByteCount(n, rig.channels) <= rig.capacity }

  /** A state in which port 0 has heard a byte 1 in sample `k`, while that sample of the stream is 0. */
  predicate Wrong(rig: Rig, s: State, n: nat, k: nat) {
    && Shaped(rig, s) && s.writer.Resting? && AllOf(s.blocks, n)
    && k < |Heard(s.ports[0])| && Heard(s.ports[0])[k].b3 == 1
    && 0 <= k * rig.channels < |Stream(s.blocks)| && Stream(s.blocks)[k * rig.channels] == Uniform(0)
  }

  /** Byte 3 of heard sample `k` is byte `4 * k + 3` handed to the channel. */
  lemma HeardByte(rig: Rig, s: State, k: nat)
    requires Reachable(rig, s) && s.writer.Resting? && Shaped(rig, s) && Fill(rig, s, 0, rig.channels, Residue(rig, s))
    requires 4 * k + 3 < |SentAll(s.blocks, rig.channels, 0)|
    ensures k < |Heard(s.ports[0])|
    ensures Heard(s.ports[0])[k].b3 == SentAll(s.blocks, rig.channels, 0)[4 * k + 3]
  {
    ReachableInv(rig, s);
    RingLength(rig, s, 0);
    assert Conserved(rig, s, 0);
    var heard := Heard(s.ports[0]);
    FlatAt(heard, k);
    assert (Flat(heard) + s.rings[0])[4 * k + 3] == Flat(heard)[4 * k..4 * k + 4][3];
  }

  lemma StreamLast(bs: seq<Block>, b: Block)
    ensures Stream(bs + [b]) == Stream(bs) + b.samples
  {
    assert (bs + [b])[..|bs|] == bs;
  }

  /** After a block, a block that sends ones: the last byte of sample `n / channels` is a one. */
  lemma TwoBlocksSent(first: Block, ones: Block, n: nat, channels: nat)
    requires n >= channels > 0 && |first.samples| == |ones.samples| == n
    requires |first.beyond| >= 3 && |ones.beyond| >= 3 && AllBytes(Sent(ones, channels, 0), 1)
    ensures var all, k := SentAll([first] + [ones], channels, 0), n / channels;
            4 * k + 3 < |all| && all[4 * k + 3] == 1
  {
    SentLast([first], ones, channels, 0);
    OneSent(first, channels);
    SentLength(first, channels, 0);
    SentLength(ones, channels, 0);
    SecondHalf(Sent(first, channels, 0), Sent(ones, channels, 0), n, channels);
  }

  lemma OneSent(b: Block, channels: nat)
    requires channels > 0
    ensures SentAll([b], channels, 0) == Sent(b, channels, 0)
  {
    SentLast([], b, channels, 0);
    assert [] + [b] == [b] && SentAll([], channels, 0) == [];
  }

  lemma SecondHalf(x: seq<Byte>, y: seq<Byte>, n: nat, channels: nat)
    requires n >= channels > 0 && |x| == |y| == ByteCount(n, channels) && AllBytes(y, 1)
    ensures 4 * (n / channels) + 3 < |x + y| && (x + y)[4 * (n / channels) + 3] == 1
  {
    ByteCountSplit(n, channels);
    DropFrame(n, channels);
    var k: nat, e: nat :| k == n / channels && |x| == 4 * k + e && e <= 3;
    assert (x + y)[4 * k + 3] == y[3 - e];
  }

  /** With at least one whole frame a block. */
  lemma TwoBlocksWrong(rig: Rig, n: nat) returns (s: State, k: nat)
    requires Roomy(rig, n) && n >= rig.channels && n % rig.channels != 0
    ensures Reachable(rig, s) && Wrong(rig, s, n, k)
    ensures k == n / rig.channels
  {
    var zeros, ones := Mixed(n, 0, 0), Mixed(n, 1, 1);
    s := Delivered(rig, [zeros] + [ones]);
    ReachableInv(rig, s);
    k := n / rig.channels;
    SentUniform(n, 1, rig.channels);
    TwoBlocksSent(zeros, ones, n, rig.channels);
    HeardByte(rig, s, k);
    BrokenIndex(n, rig.channels);
    InFirst(zeros, ones, k * rig.channels);
  }

  lemma InFirst(a: Block, b: Block, i: nat)
    requires i < |a.samples|
    ensures i < |Stream([a] + [b])| && Stream([a] + [b])[i] == a.samples[i]
  {
    StreamLast([a], b);
    StreamLast([], a);
    assert [] + [a] == [a] && Stream([]) == [] && [] + a.samples == a.samples;
  }

  lemma BrokenIndex(n: nat, m: nat)
    requires m > 0 && n % m != 0
    ensures 0 <= n / m * m < n
  {
    assert n == n / m * m + n % m;
  }

  function Copies(b: Block, k: nat): (bs: seq<Block>)
    ensures |bs| == k && forall i :: 0 <= i < k ==> bs[i] == b
  {
    seq(k, i => b)
  }

  lemma {:induction false} SentCopies(b: Block, k: nat, channels: nat, v: Byte)
    requires channels > 0 && |b.beyond| >= 3 && AllBytes(Sent(b, channels, 0), v)
    ensures AllBytes(SentAll(Copies(b, k), channels, 0), v)
    ensures |SentAll(Copies(b, k), channels, 0)| == k * ByteCount(|b.samples|, channels)
    decreases k
  {
    if k > 0 {
      SentCopies(b, k - 1, channels, v);
      SentLength(b, channels, 0);
      assert Copies(b, k) == Copies(b, k - 1) + [b];
      SentLast(Copies(b, k - 1), b, channels, 0);
      NextCopy(k, ByteCount(|b.samples|, channels));
    }
  }

  lemma NextCopy(k: int, x: int)
    ensures (k - 1) * x + x == k * x
  {
  }

  lemma {:induction false} StreamCopies(b: Block, k: nat)
    requires k > 0 && b.samples != []
    ensures Stream(Copies(b, k)) != [] && Stream(Copies(b, k))[0] == b.samples[0]
    decreases k
  {
    assert Copies(b, k)[..k - 1] == Copies(b, k - 1);
    if k > 1 {
      StreamCopies(b, k - 1);
    } else {
      assert Stream(Copies(b, 0)) == [];
    }
  }

  /** With less than a frame a block: four blocks of zeros, in front of ones. */
  lemma FourBlocksWrong(rig: Rig, n: nat) returns (s: State, k: nat)
    requires Roomy(rig, n) && n < rig.channels <= 4 * n
    ensures Reachable(rig, s) && Wrong(rig, s, n, k)
  {
    var m, b := rig.channels, Mixed(n, 0, 1);
    s := Delivered(rig, Copies(b, 4));
    ReachableInv(rig, s);
    k := 0;
    NoFrame(n, m);
    ByteCountSplit(n, m);
    SentBeyond(n, 0, 1, m);
    SentCopies(b, 4, m, 1);
    HeardByte(rig, s, 0);
    StreamCopies(b, 4);
  }

  // ----- exactly when -----

  /** Nothing is ever handed over when a block is less than a quarter of a frame. */
  lemma {:induction false} NothingSent(bs: seq<Block>, n: nat, channels: nat, c: nat)
    requires c < channels && AllOf(bs, n) && 4 * n < channels
    ensures SentAll(bs, channels, c) == []
    decreases |bs|
  {
    if bs != [] {
      NothingSent(bs[..|bs| - 1], n, channels, c);
      DivModUnique(4 * n, 0, 4 * n, channels);
    }
  }

  lemma WholeIsComplete(rig: Rig, s: State)
    requires Reachable(rig, s) && s.writer.Resting? && AllWhole(s.blocks, rig.channels)
    ensures Shaped(rig, s) && Complete(rig, s)
  {
    ReachableInv(rig, s);
    forall c | 0 <= c < rig.channels
      ensures Flat(Heard(s.ports[c])) + s.rings[c] == Flat(Every(Stream(s.blocks), rig.channels, c))
    {
      NothingLost(rig, s, c);
      SentIsChannel(s.blocks, rig.channels, c);
      EveryIsChannel(Stream(s.blocks), rig.channels, c);
    }
  }

  /** One block with a broken frame: channel 0 gets fewer bytes than its samples have. */
  lemma BrokenIsIncomplete(rig: Rig, n: nat) returns (s: State)
    requires Roomy(rig, n) && n % rig.channels != 0
    ensures Reachable(rig, s) && s.writer.Resting? && AllOf(s.blocks, n) && Shaped(rig, s) && !Complete(rig, s)
  {
    var m, b := rig.channels, Mixed(n, 0, 0);
    s := Delivered(rig, [b]);
    ReachableInv(rig, s);
    NothingLost(rig, s, 0);
    SentLast([], b, m, 0);
    assert [] + [b] == [b] && SentAll([], m, 0) == [];
    SentLength(b, m, 0);
    ByteCountSplit(n, m);
    assert Stream([b]) == b.samples by {
      assert [b][..0] == [] && Stream([]) == [] && [] + b.samples == b.samples;
    }
    EveryLength(b.samples, m);
  }

  /**
   Blocks of `n` samples, whatever they hold and whatever lies in memory: every sample reaches its port or its ring,
   in order, exactly when `n` is a whole number of frames.
   */
  lemma CompleteIff(rig: Rig, n: nat)
    requires Roomy(rig, n)
    ensures (forall s :: Reachable(rig, s) && s.writer.Resting? && AllOf(s.blocks, n) && Shaped(rig, s) ==>
                Complete(rig, s))
            <==> n % rig.channels == 0
  {
    if n % rig.channels == 0 {
      forall s | Reachable(rig, s) && s.writer.Resting? && AllOf(s.blocks, n) && Shaped(rig, s)
        ensures Complete(rig, s)
      {
        WholeIsComplete(rig, s);
      }
    } else {
      var s := BrokenIsIncomplete(rig, n);
    }
  }

  /**
   And no port ever plays a wrong sample exactly when `n` is a whole number of frames, or so little that nothing is
   played at all.
   */
  lemma HeardRightIff(rig: Rig, n: nat)
    requires Roomy(rig, n)
    ensures (forall s :: Reachable(rig, s) && s.writer.Resting? && AllOf(s.blocks, n) && Shaped(rig, s) ==>
                HeardRight(rig, s, Stream(s.blocks)))
            <==> n % rig.channels == 0 || 4 * n < rig.channels
  {
    if n % rig.channels == 0 || 4 * n < rig.channels {
      forall s | Reachable(rig, s) && s.writer.Resting? && AllOf(s.blocks, n) && Shaped(rig, s)
        ensures HeardRight(rig, s, Stream(s.blocks))
      {
        if n % rig.channels == 0 {
          HeardIsInput(rig, s);
        } else {
          SilenceIsRight(rig, s, n);
        }
      }
    } else {
      var s, k := SomeWrong(rig, n);
      WrongIsWrong(rig, s, n, k);
    }
  }

  lemma SilenceIsRight(rig: Rig, s: State, n: nat)
    requires Reachable(rig, s) && s.writer.Resting? && AllOf(s.blocks, n) && Shaped(rig, s) && 4 * n < rig.channels
    ensures HeardRight(rig, s, Stream(s.blocks))
  {
    ReachableInv(rig, s);
    forall c | 0 <= c < rig.channels ensures Heard(s.ports[c]) == [] {
      assert Conserved(rig, s, c);
      NothingSent(s.blocks, n, rig.channels, c);
    }
  }

  lemma SomeWrong(rig: Rig, n: nat) returns (s: State, k: nat)
    requires Roomy(rig, n) && n % rig.channels != 0 && 4 * n >= rig.channels
    ensures Reachable(rig, s) && Wrong(rig, s, n, k)
  {
    if n >= rig.channels {
      s, k := TwoBlocksWrong(rig, n);
    } else {
      s, k := FourBlocksWrong(rig, n);
    }
  }

  lemma WrongIsWrong(rig: Rig, s: State, n: nat, k: nat)
    requires Roomy(rig, n) && Wrong(rig, s, n, k)
    ensures !HeardRight(rig, s, Stream(s.blocks))
  {
    assert !SampleRight(rig, s, Stream(s.blocks), 0, k);
  }

  /**
   A chunk of 512 bytes in 16 bits for six channels: 42 samples a row, 170 bytes a write, and two blocks after which
   sample 42 of port 0 is wrong.
   */
  lemma SixChannels(rig: Rig) returns (s: State)
    requires rig.channels == 6 && rig.capacity >= 173
    ensures 256 / 6 == 42 && ByteCount(256, 6) == 170 > 4 * 42
    ensures Reachable(rig, s) && Wrong(rig, s, 256, 42)
  {
    var k;
    s, k := TwoBlocksWrong(rig, 256);
  }

  /** The chunk the driver asks for, 128, 256 or 512 samples: played right with 1, 2, 4 and 8 of its 1 to 8 channels. */
  lemma DefaultChunkRightIff(rig: Rig, n: nat)
    requires (n == 512 || n == 256 || n == 128) && 1 <= rig.channels <= 8 && Roomy(rig, n)
    ensures (forall s :: Reachable(rig, s) && s.writer.Resting? && AllOf(s.blocks, n) && Shaped(rig, s) ==>
                HeardRight(rig, s, Stream(s.blocks)))
            <==> rig.channels == 1 || rig.channels == 2 || rig.channels == 4 || rig.channels == 8
  {
    HeardRightIff(rig, n);
    WholeFor(n, rig.channels);
  }

  lemma WholeFor(n: nat, channels: nat)
    requires (n == 512 || n == 256 || n == 128) && 1 <= channels <= 8
    ensures n % channels == 0 <==> channels == 1 || channels == 2 || channels == 4 || channels == 8
    ensures 4 * n >= channels
  {
  }
}
