/** The JACK backend: one byte ring per channel, written channel by channel while the audio callback reads them. */
module Jack {
  import opened Bytes
  import opened JackWords

  datatype Slot = Sound(sample: Word) | Silence

  // ----- the two threads -----

  /** write_buffer: look for room on every channel, then write every channel. */
  datatype Writer =
    | Resting
    | Checking(block: Block, next: nat, least: int)
    | Writing(block: Block, next: nat)

  /** process_cb: look for the least fill over the channels, in bytes, then play that many samples of each. */
  datatype Reader =
    | Idle
    | Scanning(frames: nat, at: nat, fill: nat)
    | Playing(frames: nat, at: nat, count: nat)

  datatype Rig = Rig(channels: nat, capacity: nat)

  /** `blocks` is what completed writes accepted; `timeline` tells for every frame played whether it was sound. */
  datatype State = State(
    rings: seq<seq<Byte>>, ports: seq<seq<Slot>>,
    blocks: seq<Block>, timeline: seq<bool>, writer: Writer, reader: Reader)

  datatype Label = Submit(block: Block) | WriterStep | Callback(nframes: nat) | ReaderStep

  function Room(rig: Rig, s: State, c: nat): int
    requires c < |s.rings|
  {
    rig.capacity - |s.rings[c]|
  }

  function Sounds(v: seq<Word>): (r: seq<Slot>)
    ensures |r| == |v|
  {
    if v == [] then [] else [Sound(v[0])] + Sounds(v[1..])
  }

  function Silent(n: nat): (r: seq<Slot>)
    ensures |r| == n
  {
    if n == 0 then [] else [Silence] + Silent(n - 1)
  }

  predicate Shaped(rig: Rig, s: State) { rig.channels > 0 && |s.rings| == |s.ports| == rig.channels }

  /** One step of the writer: a look at one ring, a decision, or the write of one channel. */
  function WriterNext(rig: Rig, s: State): Option<State>
    requires Shaped(rig, s)
  {
    match s.writer
    case Resting => None
    case Checking(block, next, least) =>
      if next < rig.channels then
        var room := Room(rig, s, next);
        Some(s.(writer := Checking(block, next + 1, if next == 0 then room else Min(least, room))))
      else if ByteCount(|block.samples|, rig.channels) <= least then Some(s.(writer := Writing(block, 0)))
      else Some(s.(writer := Checking(block, 0, 0)))
    case Writing(block, next) =>
      if next < rig.channels then
        var all := Sent(block, rig.channels, next);
        var n := Max(0, Min(|all|, Room(rig, s, next)));
        Some(s.(rings := s.rings[next := s.rings[next] + all[..n]], writer := Writing(block, next + 1)))
      else Some(s.(blocks := s.blocks + [block], writer := Resting))
  }

  function ReaderNext(rig: Rig, s: State): Option<State>
    requires Shaped(rig, s)
  {
    match s.reader
    case Idle => None
    case Scanning(frames, at, fill) =>
      if at < rig.channels then
        var here := |s.rings[at]|;
        Some(s.(reader := Scanning(frames, at + 1, if at == 0 then here else Min(fill, here))))
      else Some(s.(reader := Playing(frames, 0, Min(fill / 4, frames))))
    case Playing(frames, at, count) =>
      if at < rig.channels then
        var n := Min(4 * count, |s.rings[at]|);
        Some(s.(rings := s.rings[at := s.rings[at][n..]],
                ports := s.ports[at := s.ports[at] + Sounds(Words(s.rings[at][..n])) + Silent(Max(0, frames - count))],
                reader := Playing(frames, at + 1, count)))
      else Some(s.(timeline := s.timeline + Pattern(frames, count), reader := Idle))
  }

  function Next(rig: Rig, s: State, l: Label): (r: Option<State>)
    requires Shaped(rig, s)
    ensures r.Some? ==> Shaped(rig, r.value)
  {
    match l
    case Submit(block) =>
      if s.writer.Resting? && |block.beyond| >= 3 then Some(s.(writer := Checking(block, 0, 0))) else None
    case WriterStep => WriterNext(rig, s)
    case Callback(nframes) =>
      if s.reader.Idle? && nframes > 0 then Some(s.(reader := Scanning(nframes, 0, 0))) else None
    case ReaderStep => ReaderNext(rig, s)
  }

  function Start(rig: Rig): State {
    State(seq(rig.channels, i => []), seq(rig.channels, i => []), [], [], Resting, Idle)
  }

  /** Where the steps `ls` lead, if every one of them can be taken. */
  function Run(rig: Rig, s: State, ls: seq<Label>): Option<State>
    requires Shaped(rig, s)
    decreases |ls|
  {
    if ls == [] then Some(s)
    else
      var t := Next(rig, s, ls[0]);
      if t.None? then None else Run(rig, t.value, ls[1..])
  }

  ghost predicate Reachable(rig: Rig, s: State) {
    rig.channels > 0 && exists ls :: Run(rig, Start(rig), ls) == Some(s)
  }

  // ----- what the loudspeaker hears -----

  function Heard(p: seq<Slot>): seq<Word> {
    if p == [] then [] else (if p[0].Sound? then [p[0].sample] else []) + Heard(p[1..])
  }

  /** Which slots of a port carry sound. */
  function Mask(p: seq<Slot>): (m: seq<bool>)
    ensures |m| == |p|
  {
    if p == [] then [] else [p[0].Sound?] + Mask(p[1..])
  }

  function Times(b: bool, n: nat): seq<bool> { if n == 0 then [] else [b] + Times(b, n - 1) }

  function Pattern(frames: nat, count: nat): seq<bool> { Times(true, count) + Times(false, Max(0, frames - count)) }

  lemma {:induction false} HeardAppend(p: seq<Slot>, q: seq<Slot>)
    ensures Heard(p + q) == Heard(p) + Heard(q)
  {
    if p == [] {
      assert p + q == q;
    } else {
      assert (p + q)[1..] == p[1..] + q && (p + q)[0] == p[0];
      HeardAppend(p[1..], q);
      var first := if p[0].Sound? then [p[0].sample] else [];
      assert first + (Heard(p[1..]) + Heard(q)) == (first + Heard(p[1..])) + Heard(q);
    }
  }

  lemma {:induction false} MaskAppend(p: seq<Slot>, q: seq<Slot>)
    ensures Mask(p + q) == Mask(p) + Mask(q)
  {
    if p == [] {
      assert p + q == q;
    } else {
      assert (p + q)[1..] == p[1..] + q;
      MaskAppend(p[1..], q);
    }
  }

  lemma {:induction false} HeardSounds(v: seq<Word>)
    ensures Heard(Sounds(v)) == v && Mask(Sounds(v)) == Times(true, |v|)
  {
    if v != [] {
      assert Sounds(v)[1..] == Sounds(v[1..]);
      HeardSounds(v[1..]);
    }
  }

  lemma {:induction false} HeardSilent(n: nat)
    ensures Heard(Silent(n)) == [] && Mask(Silent(n)) == Times(false, n)
  {
    if n > 0 {
      assert Silent(n)[1..] == Silent(n - 1);
      HeardSilent(n - 1);
    }
  }

  lemma HeardThree(p: seq<Slot>, a: seq<Slot>, b: seq<Slot>)
    ensures Heard(p + a + b) == Heard(p) + Heard(a) + Heard(b)
  {
    HeardAppend(p + a, b);
    HeardAppend(p, a);
  }

  lemma MaskThree(p: seq<Slot>, a: seq<Slot>, b: seq<Slot>)
    ensures Mask(p + a + b) == Mask(p) + (Mask(a) + Mask(b))
  {
    MaskAppend(p + a, b);
    MaskAppend(p, a);
  }

  /** What a port gains in one callback. */
  lemma PortGains(p: seq<Slot>, v: seq<Word>, silent: nat)
    ensures Heard(p + Sounds(v) + Silent(silent)) == Heard(p) + v
    ensures Mask(p + Sounds(v) + Silent(silent)) == Mask(p) + (Times(true, |v|) + Times(false, silent))
  {
    HeardSounds(v);
    HeardSilent(silent);
    HeardThree(p, Sounds(v), Silent(silent));
    MaskThree(p, Sounds(v), Silent(silent));
    assert Heard(p) + v + [] == Heard(p) + v;
  }

  // ----- the invariant -----

  /** The bytes handed to channel `c` by the blocks `bs`. */
  function SentAll(bs: seq<Block>, channels: nat, c: nat): seq<Byte>
    requires c < channels
  {
    if bs == [] then [] else SentAll(bs[..|bs| - 1], channels, c) + Sent(bs[|bs| - 1], channels, c)
  }

  /** The blocks channel `c` has got: one under way counts for the channels already done. */
  function Given(s: State, c: nat): seq<Block> {
    if s.writer.Writing? && c < s.writer.next then s.blocks + [s.writer.block] else s.blocks
  }

  /** Nothing is lost between the writes and the port. */
  predicate Conserved(rig: Rig, s: State, c: nat)
    requires Shaped(rig, s) && c < rig.channels
  {
    Flat(Heard(s.ports[c])) + s.rings[c] == SentAll(Given(s, c), rig.channels, c)
  }

  /** The port has played the completed callbacks, and the current one when its turn has been. */
  predicate InTime(rig: Rig, s: State, c: nat)
    requires Shaped(rig, s) && c < rig.channels
  {
    Mask(s.ports[c])
    == s.timeline + if s.reader.Playing? && c < s.reader.at then Pattern(s.reader.frames, s.reader.count) else []
  }

  /** The writer's knowledge of room and the reader's knowledge of fill stay true: the other side only helps. */
  predicate Promised(rig: Rig, s: State, c: nat)
    requires Shaped(rig, s) && c < rig.channels
  {
    && |s.rings[c]| <= rig.capacity
    && (s.writer.Checking? && c < s.writer.next ==> s.writer.least <= Room(rig, s, c))
    && (s.writer.Writing? && c >= s.writer.next ==>
          ByteCount(|s.writer.block.samples|, rig.channels) <= Room(rig, s, c))
    && (s.reader.Scanning? && c < s.reader.at ==> s.reader.fill <= |s.rings[c]|)
    && (s.reader.Playing? && c >= s.reader.at ==> 4 * s.reader.count <= |s.rings[c]|)
  }

  /** There is memory behind every array. */
  predicate Backed(bs: seq<Block>) { forall i :: 0 <= i < |bs| ==> |bs[i].beyond| >= 3 }

  predicate Bounds(rig: Rig, s: State) {
    && rig.channels > 0 && Backed(s.blocks)
    && (!s.writer.Resting? ==> s.writer.next <= rig.channels && |s.writer.block.beyond| >= 3)
    && (s.reader.Scanning? ==> s.reader.at <= rig.channels)
    && (s.reader.Playing? ==> s.reader.at <= rig.channels && s.reader.count <= s.reader.frames)
  }

  predicate Inv(rig: Rig, s: State) {
    && Shaped(rig, s) && Bounds(rig, s)
    && (forall c :: 0 <= c < rig.channels ==> Conserved(rig, s, c))
    && (forall c :: 0 <= c < rig.channels ==> InTime(rig, s, c))
    && (forall c :: 0 <= c < rig.channels ==> Promised(rig, s, c))
  }

  lemma StartInv(rig: Rig)
    requires rig.channels > 0
    ensures Inv(rig, Start(rig))
  {
  }

  lemma SentLast(bs: seq<Block>, b: Block, channels: nat, c: nat)
    requires c < channels
    ensures SentAll(bs + [b], channels, c) == SentAll(bs, channels, c) + Sent(b, channels, c)
  {
    assert (bs + [b])[..|bs|] == bs;
  }

  /** The writer's put finds the room it was promised, so all its bytes go into the ring. */
  lemma PutPutsAll(rig: Rig, s: State)
    requires Inv(rig, s) && s.writer.Writing? && s.writer.next < rig.channels
    ensures var next, all := s.writer.next, Sent(s.writer.block, rig.channels, s.writer.next);
            && |all| <= Room(rig, s, next)
            && |all| == ByteCount(|s.writer.block.samples|, rig.channels)
            && WriterNext(rig, s)
               == Some(s.(rings := s.rings[next := s.rings[next] + all], writer := Writing(s.writer.block, next + 1)))
  {
    assert Promised(rig, s, s.writer.next);
    SentLength(s.writer.block, rig.channels, s.writer.next);
    var all: seq<Byte> :| all == Sent(s.writer.block, rig.channels, s.writer.next);
    assert all[..|all|] == all;
  }

  lemma PutConserves(rig: Rig, s: State, t: State, all: seq<Byte>)
    requires Inv(rig, s) && s.writer.Writing? && s.writer.next < rig.channels
    requires all == Sent(s.writer.block, rig.channels, s.writer.next)
    requires t == s.(rings := s.rings[s.writer.next := s.rings[s.writer.next] + all],
                     writer := Writing(s.writer.block, s.writer.next + 1))
    ensures Shaped(rig, t) && Conserved(rig, t, s.writer.next)
  {
    var c := s.writer.next;
    assert Conserved(rig, s, c);
    SentLast(s.blocks, s.writer.block, rig.channels, c);
    var heard: seq<Byte> :| heard == Flat(Heard(s.ports[c]));
    var given: seq<Byte> :| given == SentAll(s.blocks, rig.channels, c);
    Glue(heard, s.rings[c], given, all);
  }

  lemma Glue(heard: seq<Byte>, ring: seq<Byte>, given: seq<Byte>, all: seq<Byte>)
    requires heard + ring == given
    ensures heard + (ring + all) == given + all
  {
    assert (heard + ring) + all == heard + (ring + all);
  }

  lemma PutKeepsChannel(rig: Rig, s: State, c: nat)
    requires Inv(rig, s) && s.writer.Writing? && s.writer.next < rig.channels && c < rig.channels
    ensures var s' := WriterNext(rig, s).value;
            Shaped(rig, s') && Conserved(rig, s', c) && InTime(rig, s', c) && Promised(rig, s', c)
  {
    var all: seq<Byte> :| all == Sent(s.writer.block, rig.channels, s.writer.next);
    PutPutsAll(rig, s);
    assert Promised(rig, s, c) && InTime(rig, s, c);
    if c == s.writer.next {
      PutConserves(rig, s, WriterNext(rig, s).value, all);
    } else {
      assert Conserved(rig, s, c);
    }
  }

  lemma WriterKeepsInv(rig: Rig, s: State)
    requires Inv(rig, s) && WriterNext(rig, s).Some?
    ensures Inv(rig, WriterNext(rig, s).value)
  {
    var s' := WriterNext(rig, s).value;
    if s.writer.Writing? && s.writer.next < rig.channels {
      forall c | 0 <= c < rig.channels
        ensures Shaped(rig, s') && Conserved(rig, s', c) && InTime(rig, s', c) && Promised(rig, s', c)
      {
        PutKeepsChannel(rig, s, c);
      }
    } else {
      forall c | 0 <= c < rig.channels
        ensures Conserved(rig, s', c) && InTime(rig, s', c) && Promised(rig, s', c)
      {
        assert Conserved(rig, s, c) && InTime(rig, s, c) && Promised(rig, s, c);
      }
    }
  }

  /** The callback finds the fill it counted on, so every channel plays exactly `count` samples. */
  lemma PlayKeepsChannel(rig: Rig, s: State, c: nat)
    requires Inv(rig, s) && s.reader.Playing? && s.reader.at < rig.channels && c < rig.channels
    ensures var s' := ReaderNext(rig, s).value;
            Shaped(rig, s') && Conserved(rig, s', c) && InTime(rig, s', c) && Promised(rig, s', c)
  {
    var at, frames, count := s.reader.at, s.reader.frames, s.reader.count;
    assert Promised(rig, s, at) && Promised(rig, s, c) && Conserved(rig, s, c) && InTime(rig, s, c);
    if c == at {
      var ring := s.rings[c];
      PlayedWords(s.ports[c], ring, count, frames - count);
      assert s.timeline + [] == s.timeline;
    }
  }

  /** `count` samples move from a ring to its port. */
  lemma PlayedWords(port: seq<Slot>, ring: seq<Byte>, count: nat, silent: nat)
    requires 4 * count <= |ring|
    ensures var port' := port + Sounds(Words(ring[..4 * count])) + Silent(silent);
            && Flat(Heard(port')) + ring[4 * count..] == Flat(Heard(port)) + ring
            && Mask(port') == Mask(port) + (Times(true, count) + Times(false, silent))
  {
    var front, back := ring[..4 * count], ring[4 * count..];
    var words: seq<Word> :| words == Words(front);
    PortGains(port, words, silent);
    FlatWords(front);
    WordsMove(Heard(port), words, front, back);
    assert ring == front + back;
  }

  lemma WordsMove(heard: seq<Word>, words: seq<Word>, front: seq<Byte>, back: seq<Byte>)
    requires Flat(words) == front
    ensures Flat(heard + words) + back == Flat(heard) + (front + back)
  {
    FlatAppend(heard, words);
  }

  lemma ReaderKeepsInv(rig: Rig, s: State)
    requires Inv(rig, s) && ReaderNext(rig, s).Some?
    ensures Inv(rig, ReaderNext(rig, s).value)
  {
    var s' := ReaderNext(rig, s).value;
    if s.reader.Playing? && s.reader.at < rig.channels {
      forall c | 0 <= c < rig.channels
        ensures Shaped(rig, s') && Conserved(rig, s', c) && InTime(rig, s', c) && Promised(rig, s', c)
      {
        PlayKeepsChannel(rig, s, c);
      }
    } else {
      forall c | 0 <= c < rig.channels
        ensures Conserved(rig, s', c) && InTime(rig, s', c) && Promised(rig, s', c)
      {
        assert Conserved(rig, s, c) && InTime(rig, s, c) && Promised(rig, s, c);
      }
    }
  }

  lemma StepKeepsInv(rig: Rig, s: State, l: Label)
    requires Inv(rig, s) && Next(rig, s, l).Some?
    ensures Inv(rig, Next(rig, s, l).value)
  {
    match l
    case WriterStep => WriterKeepsInv(rig, s);
    case ReaderStep => ReaderKeepsInv(rig, s);
    case Submit(block) =>
      var s' := Next(rig, s, l).value;
      forall c | 0 <= c < rig.channels ensures Conserved(rig, s', c) && InTime(rig, s', c) && Promised(rig, s', c) {
        assert Conserved(rig, s, c) && InTime(rig, s, c) && Promised(rig, s, c);
      }
    case Callback(n) =>
      var s' := Next(rig, s, l).value;
      forall c | 0 <= c < rig.channels ensures Conserved(rig, s', c) && InTime(rig, s', c) && Promised(rig, s', c) {
        assert Conserved(rig, s, c) && InTime(rig, s, c) && Promised(rig, s, c);
      }
  }

  lemma {:induction false} RunKeepsInv(rig: Rig, s: State, ls: seq<Label>)
    requires Inv(rig, s)
    ensures Run(rig, s, ls).Some? ==> Inv(rig, Run(rig, s, ls).value)
    decreases |ls|
  {
    if ls != [] && Next(rig, s, ls[0]).Some? {
      StepKeepsInv(rig, s, ls[0]);
      RunKeepsInv(rig, Next(rig, s, ls[0]).value, ls[1..]);
    }
  }

  lemma ReachableInv(rig: Rig, s: State)
    requires Reachable(rig, s)
    ensures Inv(rig, s)
  {
    var ls :| Run(rig, Start(rig), ls) == Some(s);
    StartInv(rig);
    RunKeepsInv(rig, Start(rig), ls);
  }

  // ----- the promises -----

  /** All samples of the blocks, in order. */
  function Stream(bs: seq<Block>): seq<Word> {
    if bs == [] then [] else Stream(bs[..|bs| - 1]) + bs[|bs| - 1].samples
  }

  /** Everything handed to write_buffer up to now, the block being written included. */
  function Accepted(s: State): seq<Block> { if s.writer.Writing? then s.blocks + [s.writer.block] else s.blocks }

  predicate AllWhole(bs: seq<Block>, channels: nat)
    requires channels > 0
  {
    forall i :: 0 <= i < |bs| ==> |bs[i].samples| % channels == 0
  }

  lemma WholeSum(a: nat, b: nat, m: nat)
    requires m > 0 && a % m == 0 && b % m == 0
    ensures (a + b) % m == 0
  {
    assert a + b == (a / m + b / m) * m;
    DivModUnique(a + b, a / m + b / m, 0, m);
  }

  /** Blocks of whole frames give every ring its channel of the stream. */
  lemma {:induction false} SentIsChannel(bs: seq<Block>, channels: nat, c: nat)
    requires c < channels && AllWhole(bs, channels)
    ensures |Stream(bs)| % channels == 0
    ensures SentAll(bs, channels, c) == Flat(Channel(Stream(bs), channels, c))
    decreases |bs|
  {
    if bs == [] {
      NoFrame(0, channels);
    } else {
      var rest, b := bs[..|bs| - 1], bs[|bs| - 1];
      SentIsChannel(rest, channels, c);
      SentWhole(b, channels, c);
      LastBlock(Stream(rest), b.samples, channels, c);
    }
  }

  lemma LastBlock(stream: seq<Word>, samples: seq<Word>, channels: nat, c: nat)
    requires c < channels && |stream| % channels == 0 && |samples| % channels == 0
    ensures |stream + samples| % channels == 0
    ensures Flat(Channel(stream + samples, channels, c))
         == Flat(Channel(stream, channels, c)) + Flat(Channel(samples, channels, c))
  {
    WholeSum(|stream|, |samples|, channels);
    ChannelAppend(stream, samples, channels, c);
    FlatAppend(Channel(stream, channels, c), Channel(samples, channels, c));
  }

  /** What port `c` heard as sample `k` is interleaved sample `k * channels + c`. */
  predicate SampleRight(rig: Rig, s: State, stream: seq<Word>, c: nat, k: nat)
    requires Shaped(rig, s) && c < rig.channels && k < |Heard(s.ports[c])|
  {
    0 <= k * rig.channels + c < |stream| && Heard(s.ports[c])[k] == stream[k * rig.channels + c]
  }

  /** Every port has heard its channel of the interleaved stream, sample by sample. */
  predicate HeardRight(rig: Rig, s: State, stream: seq<Word>)
    requires Shaped(rig, s)
  {
    forall c: nat, k: nat :: c < rig.channels && k < |Heard(s.ports[c])| ==> SampleRight(rig, s, stream, c, k)
  }

  lemma HeardSample(rig: Rig, s: State, c: nat, k: nat)
    requires Inv(rig, s) && AllWhole(Accepted(s), rig.channels)
    requires c < rig.channels && k < |Heard(s.ports[c])|
    ensures SampleRight(rig, s, Stream(Given(s, c)), c, k)
  {
    var heard, channel := Heard(s.ports[c]), Channel(Stream(Given(s, c)), rig.channels, c);
    assert Given(s, c) <= Accepted(s);
    assert AllWhole(Given(s, c), rig.channels);
    SentIsChannel(Given(s, c), rig.channels, c);
    assert Conserved(rig, s, c);
    assert (Flat(heard) + s.rings[c])[4 * k..4 * k + 4] == Flat(heard)[4 * k..4 * k + 4];
    SameWord(heard, channel, k);
    ChannelAt(Stream(Given(s, c)), rig.channels, c, k);
  }

  lemma GivenStream(s: State, c: nat)
    ensures Stream(Given(s, c)) <= Stream(Accepted(s))
  {
    if s.writer.Writing? {
      var all := s.blocks + [s.writer.block];
      assert all[..|all| - 1] == s.blocks;
    }
  }

  /**
   As long as every block is made of whole frames: in every reachable state, sound sample `k` of port `c` is
   interleaved input sample `k * channels + c`.
   */
  lemma HeardIsInput(rig: Rig, s: State)
    requires Reachable(rig, s) && AllWhole(Accepted(s), rig.channels)
    ensures Shaped(rig, s) && HeardRight(rig, s, Stream(Accepted(s)))
  {
    ReachableInv(rig, s);
    forall c: nat, k: nat | c < rig.channels && k < |Heard(s.ports[c])|
      ensures SampleRight(rig, s, Stream(Accepted(s)), c, k)
    {
      HeardSample(rig, s, c, k);
      GivenStream(s, c);
    }
  }

  /** With the writer at rest, the bytes given to a channel that its port has not played are in its ring, in order. */
  lemma NothingLost(rig: Rig, s: State, c: nat)
    requires Reachable(rig, s) && c < rig.channels && !s.writer.Writing?
    ensures |s.ports| == |s.rings| == rig.channels
    ensures Flat(Heard(s.ports[c])) + s.rings[c] == SentAll(s.blocks, rig.channels, c)
    ensures AllWhole(s.blocks, rig.channels) ==>
              Flat(Heard(s.ports[c])) + s.rings[c] == Flat(Channel(Stream(s.blocks), rig.channels, c))
  {
    ReachableInv(rig, s);
    assert Conserved(rig, s, c);
    if AllWhole(s.blocks, rig.channels) {
      SentIsChannel(s.blocks, rig.channels, c);
    }
  }

  /**
   Whatever the blocks, between callbacks no channel is ahead of another: all ports have had sound and silence in
   exactly the same slots, so all have had the same number of samples.
   */
  lemma ChannelsNeverSkew(rig: Rig, s: State, c: nat, d: nat)
    requires Reachable(rig, s) && c < rig.channels && d < rig.channels && !s.reader.Playing?
    ensures |s.ports| == rig.channels
    ensures Mask(s.ports[c]) == Mask(s.ports[d]) && |Heard(s.ports[c])| == |Heard(s.ports[d])|
  {
    ReachableInv(rig, s);
    assert InTime(rig, s, c) && InTime(rig, s, d);
    SameMaskSameCount(s.ports[c], s.ports[d]);
  }

  lemma {:induction false} SameMaskSameCount(p: seq<Slot>, q: seq<Slot>)
    requires Mask(p) == Mask(q)
    ensures |Heard(p)| == |Heard(q)|
  {
    if p != [] {
      assert Mask(p)[0] == Mask(q)[0] && Mask(p)[1..] == Mask(q)[1..];
      SameMaskSameCount(p[1..], q[1..]);
    }
  }
}
