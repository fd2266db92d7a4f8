/** A writer asleep in rsnd_fill_buffer: which signals reach it, and when it oversleeps the room it waits for. */
module EngineSleep {
  import opened Bytes
  import opened Engine
  import opened EngineSafety
  import opened EngineProgress
  import opened EngineTheorems
  import opened EngineWaits

  /** The worker has taken a chunk, and its signal for that chunk is still to come. */
  predicate SignalDue(w: WorkerPc) { w.Send? || w.Count? || w.Notify? }

  function Due(s: State): nat { if SignalDue(s.k.worker) then 1 else 0 }

  /** The application sleeps all along the run. */
  predicate SleepsThrough(c: Config, s: State, ls: seq<Label>)
    requires ValidConfig(c)
    decreases |ls|
  {
    && s.k.app.FillAsleep?
    && (ls == [] || (Next(c, s, ls[0]).Some? && SleepsThrough(c, Next(c, s, ls[0]).value, ls[1..])))
  }

  lemma SleepStep(c: Config, s: State, l: Label, t: State)
    requires ValidConfig(c) && Next(c, s, l) == Some(t) && s.k.app.FillAsleep? && t.k.app.FillAsleep?
    ensures (if l.WorkerStep? && s.k.worker.Take? then 1 else 0) + Due(s) == Due(t)
    ensures t.d.pending == s.d.pending && |t.d.fifo| <= |s.d.fifo|
    ensures !(l.WorkerStep? && s.k.worker.Take?) ==> t.d.fifo == s.d.fifo
  {
  }

  /**
   No chunk goes unheard: however long a writer sleeps, the worker takes one chunk at most, and then its signal is due;
   the signal for that chunk, or for one taken before, ends the sleep.
   */
  lemma {:induction false} SleepLastsOneTake(c: Config, s: State, ls: seq<Label>, t: State)
    requires ValidConfig(c) && SleepsThrough(c, s, ls) && Run(c, s, ls) == Some(t)
    ensures Takes(c, s, ls) + Due(s) == Due(t) <= 1
    ensures t.d.pending == s.d.pending && t.k.app.FillAsleep?
    ensures Takes(c, s, ls) == 0 ==> t.d.fifo == s.d.fifo
    decreases |ls|
  {
    if ls != [] {
      var u := Next(c, s, ls[0]).value;
      SleepStep(c, s, ls[0], u);
      SleepLastsOneTake(c, u, ls[1..], t);
    }
  }

  /**
   A writer that has not stored its piece yet has room for it as soon as the worker has taken as many bytes as the
   piece has: the piece divided by the chunk size, rounded up, is the most chunks it takes. While there is no room,
   the FIFO holds a whole chunk to take. And it does not sleep through them: at most one chunk is taken in its sleep,
   and once it has room there, the worker is on its way to the signal.
   */
  lemma BlockedWriterReleased(c: Config, s: State, ls: seq<Label>, t: State)
    requires ValidConfig(c) && MaxWrite(c) > 0 && Reachable(c, s) && InFill(s.k.app) && s.k.active
    requires NoCalls(ls) && Run(c, s, ls) == Some(t) && t.d.accepted == s.d.accepted
    ensures Room(c, t.d) || (Takes(c, s, ls) * c.chunk < Piece(c, s.d) && c.chunk <= |t.d.fifo|)
    ensures SleepsThrough(c, s, ls) ==> Takes(c, s, ls) <= 1
    ensures SleepsThrough(c, s, ls) && !Room(c, s.d) && Room(c, t.d) ==> SignalDue(t.k.worker)
  {
    ReachableInv(c, s);
    TakesShrink(c, s, ls, t, s.d.accepted + s.d.pending);
    if SleepsThrough(c, s, ls) {
      SleepLastsOneTake(c, s, ls, t);
    }
    if !Room(c, t.d) {
      NoRoomMeansWholeChunk(c, t.d);
    }
  }

  /** The piece of a sleeping writer fits, and no signal will tell it so. */
  predicate Oversleeps(c: Config, s: State)
    requires ValidConfig(c)
  {
    s.k.app.FillAsleep? && Room(c, s.d) && !SignalDue(s.k.worker)
  }

  /**
   A writer that falls asleep oversleeps, at any later moment of its sleep, exactly when its piece fitted and no signal
   was due as it released the lock, and no chunk has been taken since. Otherwise, as soon as the piece fits, the worker
   is on its way to the signal.
   */
  lemma OversleepsIff(c: Config, s: State, ls: seq<Label>, t: State)
    requires ValidConfig(c) && s.k.app.FillWait?
    requires SleepsThrough(c, Next(c, s, AppStep).value, ls) && Run(c, Next(c, s, AppStep).value, ls) == Some(t)
    ensures Oversleeps(c, t)
            <==> Room(c, s.d) && !SignalDue(s.k.worker) && Takes(c, Next(c, s, AppStep).value, ls) == 0
    ensures !Room(c, s.d) && Room(c, t.d) ==> SignalDue(t.k.worker)
  {
    SleepLastsOneTake(c, Next(c, s, AppStep).value, ls, t);
  }

  // ----- the only way to oversleep -----

  lemma {:induction false} RunLast(c: Config, s: State, ls: seq<Label>, l: Label)
    requires ValidConfig(c) && Run(c, s, ls + [l]).Some?
    ensures Run(c, s, ls).Some? && Next(c, Run(c, s, ls).value, l) == Run(c, s, ls + [l])
    decreases |ls|
  {
    if ls == [] {
      assert ls + [l] == [l];
    } else {
      assert (ls + [l])[1..] == ls[1..] + [l];
      RunLast(c, Next(c, s, ls[0]).value, ls[1..], l);
    }
  }

  lemma {:induction false} SleepsOn(c: Config, s: State, ls: seq<Label>, l: Label)
    requires ValidConfig(c) && SleepsThrough(c, s, ls) && Run(c, s, ls + [l]).Some?
    requires Run(c, s, ls + [l]).value.k.app.FillAsleep?
    ensures SleepsThrough(c, s, ls + [l])
    decreases |ls|
  {
    if ls == [] {
      assert ls + [l] == [l];
    } else {
      assert (ls + [l])[1..] == ls[1..] + [l];
      SleepsOn(c, Next(c, s, ls[0]).value, ls[1..], l);
    }
  }

  lemma RunFrom(c: Config, ls: seq<Label>, n: nat, s: State, t: State)
    requires ValidConfig(c) && Run(c, Init(c), ls) == Some(t) && n < |ls| && Run(c, Init(c), ls[..n]) == Some(s)
    ensures Next(c, s, ls[n]).Some? && Run(c, Next(c, s, ls[n]).value, ls[n + 1..]) == Some(t)
  {
    var tail := ls[n..];
    assert ls == ls[..n] + tail && tail[0] == ls[n] && tail[1..] == ls[n + 1..];
    RunConcat(c, Init(c), ls[..n], tail);
  }

  /** A step that makes a writer oversleep is its falling asleep. */
  lemma FirstOversleep(c: Config, s: State, l: Label, t: State)
    requires ValidConfig(c) && Next(c, s, l) == Some(t) && !Oversleeps(c, s) && Oversleeps(c, t)
    ensures s.k.app.FillWait? && l.AppStep? && Room(c, s.d) && !SignalDue(s.k.worker)
  {
    if s.k.app.FillAsleep? {
      SleepStep(c, s, l, t);
    }
  }

  /**
   In every run from the start, a writer that oversleeps has been asleep since a moment at which its piece fitted and no
   signal was due: the signal for that room was sent after its test, before its wait, and is lost.
   */
  lemma {:induction false} OversleepsSince(c: Config, ls: seq<Label>, t: State) returns (n: nat, s: State)
    requires ValidConfig(c) && Run(c, Init(c), ls) == Some(t) && Oversleeps(c, t)
    ensures n < |ls| && Run(c, Init(c), ls[..n]) == Some(s) && ls[n].AppStep?
    ensures s.k.app.FillWait? && Room(c, s.d) && !SignalDue(s.k.worker)
    ensures SleepsThrough(c, Next(c, s, AppStep).value, ls[n + 1..])
    decreases |ls|
  {
    var before, l := ls[..|ls| - 1], ls[|ls| - 1];
    assert ls == before + [l];
    RunLast(c, Init(c), before, l);
    var p := Run(c, Init(c), before).value;
    if Oversleeps(c, p) {
      n, s := OversleepsSince(c, before, p);
      assert before[..n] == ls[..n] && ls[n + 1..] == before[n + 1..] + [l];
      RunFrom(c, ls, n, s, t);
      SleepsOn(c, Next(c, s, AppStep).value, before[n + 1..], l);
    } else {
      FirstOversleep(c, p, l, t);
      n, s := |ls| - 1, p;
    }
  }

  // ----- it happens -----

  lemma Reach(c: Config, s: State, l: Label, t: State)
    requires ValidConfig(c) && Reachable(c, s) && Next(c, s, l) == Some(t)
    ensures Reachable(c, t)
  {
    var ls :| Run(c, Init(c), ls) == Some(s);
    RunConcat(c, Init(c), ls, [l]);
    assert Run(c, Init(c), ls + [l]) == Some(t);
  }

  lemma ReachRun(c: Config, s: State, ls: seq<Label>, t: State)
    requires ValidConfig(c) && Reachable(c, s) && Run(c, s, ls) == Some(t)
    ensures Reachable(c, t)
  {
    var before :| Run(c, Init(c), before) == Some(s);
    RunConcat(c, Init(c), before, ls);
    assert Run(c, Init(c), before + ls) == Some(t);
  }

  /** The worker takes a chunk, sends it in one piece and signals, while the application is about to sleep. */
  lemma TakenUnheard(c: Config, s: State) returns (t: State)
    requires ValidConfig(c) && Reachable(c, s) && c.chunk <= c.netCapacity && c.chunk <= |s.d.fifo|
    requires s.k == Control(FillWait, TestCancel, Stop, true, HeldByApp) && s.d.net == [] && s.d.unsent == []
    ensures Reachable(c, t) && t.k == s.k && t.d.pending == s.d.pending && |t.d.fifo| == |s.d.fifo| - c.chunk
  {
    var s1 := s.(k := s.k.(worker := TestAvail));
    var s2 := s.(k := s.k.(worker := TestCancelAgain));
    var s3 := s.(k := s.k.(worker := Take));
    Reach(c, s, WorkerStep, s1);
    Reach(c, s1, WorkerStep, s2);
    Reach(c, s2, WorkerStep, s3);
    var s4 := Next(c, s3, WorkerStep).value;
    Reach(c, s3, WorkerStep, s4);
    t := SentUnheard(c, s4);
  }

  lemma SentUnheard(c: Config, s: State) returns (t: State)
    requires ValidConfig(c) && Reachable(c, s) && |s.d.unsent| == c.chunk <= c.netCapacity
    requires s.k == Control(FillWait, Send, Stop, true, HeldByApp) && s.d.net == []
    ensures Reachable(c, t) && t.k == s.k.(worker := TestCancel)
    ensures t.d.pending == s.d.pending && t.d.fifo == s.d.fifo
  {
    var s1 := Next(c, s, WorkerSend(c.chunk)).value;
    Reach(c, s, WorkerSend(c.chunk), s1);
    var s2 := Next(c, s1, WorkerStep).value;
    Reach(c, s1, WorkerStep, s2);
    t := Next(c, s2, WorkerStep).value;
    Reach(c, s2, WorkerStep, t);
  }

  /** With a buffer of about three chunks any write longer than the buffer can be made to oversleep. */
  lemma OversleepHappens(c: Config, data: seq<Byte>)
    requires ValidConfig(c) && 0 < MaxWrite(c) <= c.chunk <= c.netCapacity && |data| > c.bufferSize
    ensures exists s :: Reachable(c, s) && Oversleeps(c, s)
  {
    assert Run(c, Init(c), []) == Some(Init(c));
    var called := Next(c, Init(c), CallWrite(data)).value;
    Reach(c, Init(c), CallWrite(data), called);
    var ls := AloneIntoWait(c, called);
    var locking := Run(c, called, ls).value;
    ReachRun(c, called, ls, locking);
    var signalling := locking.(k := locking.k.(app := FillSignal, condMutex := HeldByApp));
    Reach(c, locking, AppStep, signalling);
    var waiting := locking.(k := locking.k.(app := FillWait, condMutex := HeldByApp));
    Reach(c, signalling, AppStep, waiting);
    NoRoomMeansWholeChunk(c, waiting.d);
    var taken := TakenUnheard(c, waiting);
    var asleep := Next(c, taken, AppStep).value;
    Reach(c, taken, AppStep, asleep);
    assert Oversleeps(c, asleep);
  }
}
