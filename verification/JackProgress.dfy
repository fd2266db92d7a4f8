/** The busy wait of write_buffer, and schedules of callbacks that end it. */
module JackProgress {
  import opened Bytes
  import opened JackWords
  import opened Jack

  predicate NoSubmits(ls: seq<Label>) { forall i :: 0 <= i < |ls| ==> !ls[i].Submit? }

  lemma {:induction false} RunConcat(rig: Rig, s: State, a: seq<Label>, b: seq<Label>)
    requires Shaped(rig, s) && Run(rig, s, a).Some?
    ensures Shaped(rig, Run(rig, s, a).value)
    ensures Run(rig, s, a + b) == Run(rig, Run(rig, s, a).value, b)
    decreases |a|
  {
    if a == [] {
      assert a + b == b;
    } else {
      assert (a + b)[1..] == a[1..] + b;
      RunConcat(rig, Next(rig, s, a[0]).value, a[1..], b);
    }
  }

  /** One step in front of a run. */
  lemma RunFirst(rig: Rig, s: State, l: Label, ls: seq<Label>)
    requires Shaped(rig, s) && Next(rig, s, l).Some?
    ensures Run(rig, s, [l] + ls) == Run(rig, Next(rig, s, l).value, ls)
  {
    assert ([l] + ls)[1..] == ls;
  }

  /** The bytes of an incomplete sample that stay in a ring when all whole samples are played. */
  function Residue(rig: Rig, s: State): nat
    requires rig.channels > 0
  {
    |SentAll(s.blocks, rig.channels, 0)| % 4
  }

  /** Every channel has been handed the same number of bytes. */
  lemma {:induction false} EvenShares(bs: seq<Block>, channels: nat, c: nat)
    requires c < channels && Backed(bs)
    ensures |SentAll(bs, channels, c)| == |SentAll(bs, channels, 0)|
    decreases |bs|
  {
    if bs != [] {
      EvenShares(bs[..|bs| - 1], channels, c);
      SentLength(bs[|bs| - 1], channels, c);
      SentLength(bs[|bs| - 1], channels, 0);
    }
  }

  lemma RingLength(rig: Rig, s: State, c: nat)
    requires Inv(rig, s) && c < rig.channels && !s.writer.Writing?
    ensures |s.rings[c]| + 4 * |Heard(s.ports[c])| == |SentAll(s.blocks, rig.channels, 0)|
    ensures |s.rings[c]| % 4 == Residue(rig, s)
  {
    assert Conserved(rig, s, c);
    EvenShares(s.blocks, rig.channels, c);
    WholeWords(|s.rings[c]|, |Heard(s.ports[c])|, |SentAll(s.blocks, rig.channels, 0)|);
  }

  lemma WholeWords(left: nat, words: nat, all: nat)
    requires left + 4 * words == all
    ensures left % 4 == all % 4
  {
  }

  /** A block that does not fit beside the residue never leaves the wait. */
  predicate Hopeless(rig: Rig, s: State, block: Block) {
    && rig.channels > 0 && s.writer.Checking? && s.writer.block == block
    && Residue(rig, s) + ByteCount(|block.samples|, rig.channels) > rig.capacity
  }

  lemma RoomBeside(rig: Rig, s: State)
    requires Inv(rig, s) && !s.writer.Writing?
    ensures Room(rig, s, 0) <= rig.capacity - Residue(rig, s)
  {
    RingLength(rig, s, 0);
  }

  lemma HopelessWriter(rig: Rig, s: State, block: Block, room: int)
    requires Inv(rig, s) && s.writer.Checking? && s.writer.block == block
    requires Room(rig, s, 0) <= room < ByteCount(|block.samples|, rig.channels)
    ensures WriterNext(rig, s).Some?
    ensures WriterNext(rig, s).value.writer.Checking? && WriterNext(rig, s).value.writer.block == block
    ensures WriterNext(rig, s).value.blocks == s.blocks
  {
    assert Promised(rig, s, 0);
  }

  lemma HopelessStep(rig: Rig, s: State, l: Label, block: Block)
    requires Inv(rig, s) && Hopeless(rig, s, block) && !l.Submit? && Next(rig, s, l).Some?
    ensures Hopeless(rig, Next(rig, s, l).value, block)
  {
    RoomBeside(rig, s);
    HopelessWriter(rig, s, block, rig.capacity - Residue(rig, s));
  }

  lemma {:induction false} HopelessRun(rig: Rig, s: State, ls: seq<Label>, block: Block)
    requires Inv(rig, s) && Hopeless(rig, s, block) && NoSubmits(ls)
    ensures Run(rig, s, ls).Some? ==> Hopeless(rig, Run(rig, s, ls).value, block)
    decreases |ls|
  {
    if ls != [] && Next(rig, s, ls[0]).Some? {
      HopelessStep(rig, s, ls[0], block);
      StepKeepsInv(rig, s, ls[0]);
      HopelessRun(rig, Next(rig, s, ls[0]).value, ls[1..], block);
    }
  }

  /** How many steps the callback has before it. */
  function ReaderRank(rig: Rig, r: Reader): int {
    match r
    case Idle => 0
    case Scanning(_, at, _) => 2 * rig.channels + 2 - at
    case Playing(_, at, _) => rig.channels + 1 - at
  }

  /** A callback under way comes to its end. */
  lemma {:induction false} CallbackEnds(rig: Rig, s: State) returns (ls: seq<Label>, t: State)
    requires Inv(rig, s)
    ensures NoSubmits(ls) && Run(rig, s, ls) == Some(t) && Inv(rig, t)
    ensures t.reader.Idle? && t.writer == s.writer && t.blocks == s.blocks
    decreases ReaderRank(rig, s.reader)
  {
    if s.reader.Idle? {
      ls, t := [], s;
    } else {
      var u := ReaderNext(rig, s).value;
      ReaderKeepsInv(rig, s);
      var rest;
      rest, t := CallbackEnds(rig, u);
      RunFirst(rig, s, ReaderStep, rest);
      ls := [ReaderStep] + rest;
    }
  }

  predicate Fill(rig: Rig, s: State, lo: nat, hi: nat, n: nat) {
    Shaped(rig, s) && forall c :: lo <= c < hi && c < rig.channels ==> |s.rings[c]| == n
  }

  /** Between callbacks, with no channel half written, all rings hold the same number of bytes. */
  lemma EvenFill(rig: Rig, s: State)
    requires Inv(rig, s) && s.reader.Idle? && !s.writer.Writing?
    ensures Fill(rig, s, 0, rig.channels, |s.rings[0]|)
  {
    forall c | 0 <= c < rig.channels ensures |s.rings[c]| == |s.rings[0]| {
      RingLength(rig, s, c);
      RingLength(rig, s, 0);
      assert InTime(rig, s, c) && InTime(rig, s, 0);
      SameMaskSameCount(s.ports[c], s.ports[0]);
    }
  }

  /** A callback for as many samples as every ring of `n` bytes holds: the channels already played keep a residue. */
  predicate Draining(rig: Rig, s: State, n: nat) {
    match s.reader
    case Idle => Fill(rig, s, 0, rig.channels, n % 4)
    case Scanning(frames, at, fill) => frames == n / 4 && (at > 0 ==> fill == n) && Fill(rig, s, 0, rig.channels, n)
    case Playing(_, at, count) => count == n / 4 && Fill(rig, s, 0, at, n % 4) && Fill(rig, s, at, rig.channels, n)
  }

  lemma DrainStep(rig: Rig, s: State, n: nat)
    requires Inv(rig, s) && Draining(rig, s, n) && !s.reader.Idle?
    ensures Draining(rig, ReaderNext(rig, s).value, n)
  {
  }

  lemma {:induction false} DrainEnds(rig: Rig, s: State, n: nat) returns (ls: seq<Label>, t: State)
    requires Inv(rig, s) && Draining(rig, s, n)
    ensures NoSubmits(ls) && Run(rig, s, ls) == Some(t) && Inv(rig, t)
    ensures t.writer == s.writer && t.blocks == s.blocks && Fill(rig, t, 0, rig.channels, n % 4)
    decreases ReaderRank(rig, s.reader)
  {
    if s.reader.Idle? {
      ls, t := [], s;
    } else {
      var u := ReaderNext(rig, s).value;
      ReaderKeepsInv(rig, s);
      DrainStep(rig, s, n);
      var rest;
      rest, t := DrainEnds(rig, u, n);
      RunFirst(rig, s, ReaderStep, rest);
      ls := [ReaderStep] + rest;
    }
  }

  /** Callbacks alone can empty every ring down to the residue. */
  lemma RingsDrain(rig: Rig, s: State) returns (ls: seq<Label>, t: State)
    requires Inv(rig, s) && !s.writer.Writing?
    ensures NoSubmits(ls) && Run(rig, s, ls) == Some(t) && Inv(rig, t)
    ensures t.writer == s.writer && t.blocks == s.blocks && Fill(rig, t, 0, rig.channels, Residue(rig, s))
  {
    var a, u := CallbackEnds(rig, s);
    EvenFill(rig, u);
    RingLength(rig, u, 0);
    var n := |u.rings[0]|;
    if n < 4 {
      return a, u;
    }
    StepKeepsInv(rig, u, Callback(n / 4));
    var v := Next(rig, u, Callback(n / 4)).value;
    var b;
    b, t := DrainEnds(rig, v, n);
    RunFirst(rig, u, Callback(n / 4), b);
    RunConcat(rig, s, a, [Callback(n / 4)] + b);
    ls := a + ([Callback(n / 4)] + b);
  }

  function WriterRank(rig: Rig, w: Writer): int {
    match w
    case Resting => 0
    case Checking(_, next, _) => 2 * rig.channels + 2 - next
    case Writing(_, next) => rig.channels + 1 - next
  }

  /** The writer finds room everywhere, or has found it. */
  predicate Welcome(rig: Rig, s: State, residue: nat) {
    && Shaped(rig, s)
    && (s.writer.Checking? ==>
          && residue + ByteCount(|s.writer.block.samples|, rig.channels) <= rig.capacity
          && Fill(rig, s, 0, rig.channels, residue)
          && (s.writer.next > 0 ==> s.writer.least == rig.capacity - residue))
  }

  lemma WelcomeStep(rig: Rig, s: State, residue: nat)
    requires Inv(rig, s) && Welcome(rig, s, residue) && !s.writer.Resting?
    ensures Welcome(rig, WriterNext(rig, s).value, residue)
    ensures 0 <= WriterRank(rig, WriterNext(rig, s).value.writer) < WriterRank(rig, s.writer)
  {
    WriterKeepsInv(rig, s);
  }

  lemma {:induction false} WriteEnds(rig: Rig, s: State, residue: nat) returns (ls: seq<Label>, t: State)
    requires Inv(rig, s) && Welcome(rig, s, residue)
    ensures NoSubmits(ls) && Run(rig, s, ls) == Some(t) && t.writer.Resting? && Inv(rig, t)
    ensures t.blocks == if s.writer.Resting? then s.blocks else s.blocks + [s.writer.block]
    decreases WriterRank(rig, s.writer)
  {
    if s.writer.Resting? {
      ls, t := [], s;
    } else {
      var u := WriterNext(rig, s).value;
      WriterKeepsInv(rig, s);
      WelcomeStep(rig, s, residue);
      var rest;
      rest, t := WriteEnds(rig, u, residue);
      RunFirst(rig, s, WriterStep, rest);
      ls := [WriterStep] + rest;
    }
  }

  /** A schedule that takes a fitting block through, from any state with the writer at rest. */
  lemma Delivery(rig: Rig, s: State, block: Block) returns (ls: seq<Label>, t: State)
    requires Inv(rig, s) && s.writer.Resting? && |block.beyond| >= 3
    requires Residue(rig, s) + ByteCount(|block.samples|, rig.channels) <= rig.capacity
    ensures NoSubmits(ls) && Run(rig, s, [Submit(block)] + ls) == Some(t)
    ensures Inv(rig, t) && t.writer.Resting? && t.blocks == s.blocks + [block]
  {
    StepKeepsInv(rig, s, Submit(block));
    var u := Next(rig, s, Submit(block)).value;
    var a, v := RingsDrain(rig, u);
    var b;
    b, t := WriteEnds(rig, v, Residue(rig, s));
    RunConcat(rig, u, a, b);
    RunFirst(rig, s, Submit(block), a + b);
    ls := a + b;
  }

  /** Some schedule of callbacks lets write_buffer through exactly when its bytes fit a ring beside the residue. */
  lemma WriteGetsThroughIff(rig: Rig, s: State, block: Block)
    requires Reachable(rig, s) && s.writer.Resting? && |block.beyond| >= 3
    ensures Shaped(rig, s)
    ensures (exists ls, t :: NoSubmits(ls) && Run(rig, s, [Submit(block)] + ls) == Some(t) && t.writer.Resting?)
            <==> Residue(rig, s) + ByteCount(|block.samples|, rig.channels) <= rig.capacity
  {
    ReachableInv(rig, s);
    StepKeepsInv(rig, s, Submit(block));
    var u := Next(rig, s, Submit(block)).value;
    if Residue(rig, s) + ByteCount(|block.samples|, rig.channels) <= rig.capacity {
      var ls, t := Delivery(rig, s, block);
    } else {
      forall ls, t | NoSubmits(ls) && Run(rig, s, [Submit(block)] + ls) == Some(t) ensures !t.writer.Resting? {
        RunFirst(rig, s, Submit(block), ls);
        HopelessRun(rig, u, ls, block);
      }
    }
  }

  // ----- no needless wait -----

  function WriterSteps(ls: seq<Label>): nat {
    if ls == [] then 0 else (if ls[0].WriterStep? then 1 else 0) + WriterSteps(ls[1..])
  }

  /** What the writer has seen, and what it has yet to look at, has room for its block. */
  predicate FindsRoom(rig: Rig, s: State) {
    && Shaped(rig, s)
    && (s.writer.Checking? ==>
          var need := ByteCount(|s.writer.block.samples|, rig.channels);
          && (s.writer.next > 0 ==> need <= s.writer.least)
          && (forall c :: s.writer.next <= c < rig.channels ==> need <= Room(rig, s, c)))
  }

  /** The blocks handed over, the one being looked at or written included. */
  function Submitted(s: State): seq<Block> { if s.writer.Resting? then s.blocks else s.blocks + [s.writer.block] }

  lemma FindsRoomStep(rig: Rig, s: State, l: Label)
    requires Inv(rig, s) && FindsRoom(rig, s) && !l.Submit? && Next(rig, s, l).Some?
    ensures var t := Next(rig, s, l).value;
            && FindsRoom(rig, t)
            && WriterRank(rig, t.writer) == WriterRank(rig, s.writer) - (if l.WriterStep? then 1 else 0)
            && Submitted(t) == Submitted(s)
  {
    var t := Next(rig, s, l).value;
    if s.writer.Checking? {
      forall c | 0 <= c < rig.channels ensures Room(rig, t, c) >= Room(rig, s, c) {
        if l.ReaderStep? {
          assert |ReaderNext(rig, s).value.rings[c]| <= |s.rings[c]|;
        } else {
          assert t.rings == s.rings;
        }
      }
    }
  }

  lemma {:induction false} FindsRoomRun(rig: Rig, s: State, ls: seq<Label>, t: State)
    requires Inv(rig, s) && FindsRoom(rig, s) && NoSubmits(ls) && Run(rig, s, ls) == Some(t)
    ensures WriterRank(rig, t.writer) == WriterRank(rig, s.writer) - WriterSteps(ls)
    ensures Submitted(t) == Submitted(s) && Inv(rig, t)
    decreases |ls|
  {
    if ls != [] {
      FindsRoomStep(rig, s, ls[0]);
      StepKeepsInv(rig, s, ls[0]);
      FindsRoomRun(rig, Next(rig, s, ls[0]).value, ls[1..], t);
    }
  }

  /**
   The wait lasts no longer than it must: when every ring has room as a look at them begins, the write is over after
   that look and one pass of writes, 2 * channels + 2 statements, whatever callbacks come between.
   */
  lemma RoomEndsWait(rig: Rig, s: State, ls: seq<Label>, t: State)
    requires Reachable(rig, s) && s.writer.Checking? && s.writer.next == 0 && Shaped(rig, s)
    requires forall c :: 0 <= c < rig.channels ==> ByteCount(|s.writer.block.samples|, rig.channels) <= Room(rig, s, c)
    requires NoSubmits(ls) && Run(rig, s, ls) == Some(t)
    ensures t.writer.Resting? <==> WriterSteps(ls) == 2 * rig.channels + 2
    ensures t.writer.Resting? ==> t.blocks == s.blocks + [s.writer.block]
  {
    ReachableInv(rig, s);
    FindsRoomRun(rig, s, ls, t);
  }

  /** A reachable state goes on to a reachable state. */
  lemma ReachOn(rig: Rig, s: State, ls: seq<Label>, t: State)
    requires Reachable(rig, s) && Shaped(rig, s) && Run(rig, s, ls) == Some(t)
    ensures Reachable(rig, t)
  {
    var before :| Run(rig, Start(rig), before) == Some(s);
    RunConcat(rig, Start(rig), before, ls);
    assert Run(rig, Start(rig), before + ls) == Some(t);
  }

  lemma DeliveredNext(rig: Rig, s: State, block: Block) returns (t: State)
    requires Reachable(rig, s) && s.writer.Resting? && |block.beyond| >= 3
    requires 3 + ByteCount(|block.samples|, rig.channels) <= rig.capacity
    ensures Reachable(rig, t) && t.writer.Resting? && t.blocks == s.blocks + [block]
  {
    ReachableInv(rig, s);
    var ls;
    ls, t := Delivery(rig, s, block);
    ReachOn(rig, s, [Submit(block)] + ls, t);
  }

  /** Blocks that fit, one after the other, and then played as far as they go. */
  lemma {:induction false} Delivered(rig: Rig, bs: seq<Block>) returns (t: State)
    requires rig.channels > 0 && Backed(bs)
    requires forall i :: 0 <= i < |bs| ==> 3 + ByteCount(|bs[i].samples|, rig.channels) <= rig.capacity
    ensures Reachable(rig, t) && t.writer.Resting? && t.blocks == bs
    ensures Fill(rig, t, 0, rig.channels, Residue(rig, t))
    decreases |bs|
  {
    var s: State;
    if bs == [] {
      s := Start(rig);
      assert Run(rig, s, []) == Some(s);
    } else {
      var before := Delivered(rig, bs[..|bs| - 1]);
      s := DeliveredNext(rig, before, bs[|bs| - 1]);
    }
    ReachableInv(rig, s);
    var drain;
    drain, t := RingsDrain(rig, s);
    ReachOn(rig, s, drain, t);
  }
}
