/** The whole-system invariant of the engine, kept by every step. */
module EngineSafety {
  import opened Bytes
  import opened Engine

  /** Nothing lost, duplicated or reordered: every accepted byte is in exactly one place, in order. */
  ghost predicate StreamInv(c: Config, d: Data) {
    && d.accepted == d.played + d.srv + d.net + d.unsent + d.flush + d.fifo
    && d.carried == c.header + d.played + d.srv + d.net
  }

  predicate AppHolds(pc: AppPc) {
    pc.FillSignal? || pc.FillWait? || pc.FillUnlock? || pc.StopClear? || pc.StopSignal? || pc.StopUnlock?
  }

  predicate WorkerHolds(pc: WorkerPc) {
    pc.SignalCond? || pc.Retest? || pc.WaitCond? || pc.UnlockCond?
  }

  predicate InFill(pc: AppPc) {
    || pc.FillTestActive? || pc.FillTestSpace? || pc.FillLock? || pc.FillSignal? || pc.FillWait?
    || pc.FillAsleep? || pc.FillReacquire? || pc.FillUnlock? || pc.FillStore?
  }

  /** The worker has been joined. */
  predicate AfterJoined(pc: AppPc) {
    pc.Flush? || pc.FlushSend? || pc.ExecDone? || pc.Stopped?
  }

  /** thread_active has been cleared. */
  predicate AfterClear(pc: AppPc) {
    pc.StopSignal? || pc.StopUnlock? || pc.StopJoin? || AfterJoined(pc)
  }

  /** Who holds cond_mutex, and why two sleepers cannot coexist. */
  predicate LockInv(k: Control) {
    && (k.condMutex.HeldByApp? <==> AppHolds(k.app))
    && (k.condMutex.HeldByWorker? <==> WorkerHolds(k.worker))
    && !(k.app.FillAsleep? && k.worker.Asleep?)
    && (k.app.FillWait? ==> !k.worker.Asleep?)
    && (k.worker.Retest? || k.worker.WaitCond? ==> !k.app.FillAsleep?)
  }

  /** thread_active against the program counters. */
  predicate ActiveInv(k: Control) {
    && (k.active <==> !AfterClear(k.app))
    && (k.worker.SignalExit? || k.worker.Exited? ==> !k.active)
    && (k.worker.WaitCond? ==> k.active)
    && (k.worker.Asleep? && !k.active ==> k.app.StopSignal?)
    && (AfterJoined(k.app) ==> k.worker.Exited?)
  }

  predicate ControlInv(k: Control) { LockInv(k) && ActiveInv(k) }

  /** Sizes, and the buffers that belong to one program point. */
  predicate SizeInv(c: Config, k: Control, d: Data)
    requires ValidConfig(c)
  {
    && |d.fifo| <= c.bufferSize
    && |d.net| <= c.netCapacity
    && |d.unsent| <= c.chunk
    && (d.unsent != [] <==> k.worker.Send?)
    && (d.flush != [] <==> k.app.FlushSend?)
    && (k.worker.TestCancelAgain? || k.worker.Take? ==> c.chunk <= |d.fifo|)
    && (InFill(k.app) ==> d.pending != [])
    && (k.app.Idle? ==> d.pending == [])
    && (k.app.FillStore? ==> Room(c, d))
    && (k.app.FlushSend? || k.app.ExecDone? ==> d.fifo == [])
  }

  /** The server plays whole chunks of its own size. */
  predicate ServerInv(c: Config, d: Data)
    requires ValidConfig(c)
  {
    && (d.playing ==> d.srv != [] && (|d.played| + |d.srv|) % c.serverChunk == 0)
    && (!d.playing ==> |d.srv| < c.serverChunk && |d.played| % c.serverChunk == 0)
    && |d.srv| <= c.serverChunk
  }

  /** What total_written misses of the accepted bytes is in the worker's hands or in the FIFO; rsd_stop clears it. */
  predicate CountInv(c: Config, k: Control, d: Data)
    requires ValidConfig(c)
  {
    && (k.app.Stopped? ==> d.totalWritten == 0)
    && (!k.app.FlushSend? && !k.app.ExecDone? && !k.app.Stopped? ==>
          |d.accepted| == d.totalWritten + (if k.worker.Send? || k.worker.Count? then c.chunk else 0) + |d.fifo|)
  }

  predicate WholeChunks(c: Config, d: Data)
    requires ValidConfig(c)
  {
    d.totalWritten % c.chunk == 0
  }

  ghost predicate Inv(c: Config, s: State)
    requires ValidConfig(c)
  {
    && StreamInv(c, s.d)
    && ControlInv(s.k)
    && SizeInv(c, s.k, s.d)
    && ServerInv(c, s.d)
    && CountInv(c, s.k, s.d)
    && WholeChunks(c, s.d)
  }

  lemma AppKeepsLock(k: Control, more: bool, room: bool, stores: bool, left: bool, t: Control)
    requires ControlInv(k) && AppControl(k, more, room, stores, left) == Some(t)
    ensures LockInv(t)
  {
  }

  lemma AppKeepsActive(k: Control, more: bool, room: bool, stores: bool, left: bool, t: Control)
    requires ControlInv(k) && AppControl(k, more, room, stores, left) == Some(t)
    ensures ActiveInv(t)
  {
  }

  lemma WorkerKeepsControl(k: Control, whole: bool, t: Control)
    requires ControlInv(k) && WorkerControl(k, whole) == Some(t)
    ensures ControlInv(t)
  {
  }

  lemma ControlPreserved(c: Config, s: State, l: Label, t: State)
    requires ValidConfig(c) && Inv(c, s) && Next(c, s, l) == Some(t)
    ensures ControlInv(t.k)
  {
    var State(k, d) := s;
    if l.AppStep? {
      AppKeepsLock(k, d.pending != [], Room(c, d), MaxWrite(c) > 0, d.fifo != [], t.k);
      AppKeepsActive(k, d.pending != [], Room(c, d), MaxWrite(c) > 0, d.fifo != [], t.k);
    } else if l.WorkerStep? {
      WorkerKeepsControl(k, c.chunk <= |d.fifo|, t.k);
    }
  }

  // Stream order: a step moves bytes across one boundary only.

  lemma Shift(p: seq<Byte>, a: seq<Byte>, b: seq<Byte>, q: seq<Byte>, n: nat)
    requires n <= |b|
    ensures p + a + b + q == p + (a + b[..n]) + b[n..] + q
  {
    assert b == b[..n] + b[n..];
  }

  lemma AppKeepsStream(c: Config, k: Control, d: Data)
    requires ValidConfig(c) && StreamInv(c, d) && (k.app.Flush? ==> d.flush == [])
    ensures StreamInv(c, AppData(c, k, d))
  {
    if k.app.FillStore? {
      var piece := d.pending[..Piece(c, d)];
      var before := d.played + d.srv + d.net + d.unsent + d.flush;
      assert (before + d.fifo) + piece == before + (d.fifo + piece);
    } else if k.app.Flush? {
      var before := d.played + d.srv + d.net + d.unsent;
      assert before + [] + d.fifo == before + d.fifo + [];
    }
  }

  lemma WorkerKeepsStream(c: Config, k: Control, d: Data)
    requires ValidConfig(c) && StreamInv(c, d)
    requires k.worker.Take? ==> d.unsent == [] && d.flush == []
    ensures StreamInv(c, WorkerData(c, k, d))
  {
    if k.worker.Take? && c.chunk <= |d.fifo| {
      var before := d.played + d.srv + d.net;
      Shift(before, [], d.fifo, [], c.chunk);
      assert before + [] + [] + d.fifo == before + [] + d.fifo + [];
      assert [] + d.fifo[..c.chunk] == d.fifo[..c.chunk];
      assert before + d.fifo[..c.chunk] + [] + d.fifo[c.chunk..] == before + d.fifo[..c.chunk] + d.fifo[c.chunk..] + [];
    }
  }

  lemma SendKeepsStream(c: Config, s: State, l: Label, t: State)
    requires ValidConfig(c) && StreamInv(c, s.d) && Next(c, s, l) == Some(t)
    requires l.WorkerSend? || l.FlushPiece?
    requires l.FlushPiece? ==> s.d.unsent == []
    ensures StreamInv(c, t.d)
  {
    var d := s.d;
    var before := d.played + d.srv;
    if l.WorkerSend? {
      Shift(before, d.net, d.unsent, d.flush + d.fifo, l.n);
      assert before + d.net + d.unsent + d.flush + d.fifo == before + d.net + d.unsent + (d.flush + d.fifo);
      assert before + t.d.net + t.d.unsent + d.flush + d.fifo == before + t.d.net + t.d.unsent + (d.flush + d.fifo);
      SendCarried(c.header + d.played + d.srv, d.net, d.unsent[..l.n]);
    } else {
      Shift(before, d.net, d.flush, d.fifo, l.n);
      assert before + d.net + [] == before + d.net && before + t.d.net + [] == before + t.d.net;
      SendCarried(c.header + d.played + d.srv, d.net, d.flush[..l.n]);
    }
  }

  lemma SendCarried(p: seq<Byte>, net: seq<Byte>, piece: seq<Byte>)
    ensures p + net + piece == p + (net + piece)
  {
  }

  lemma ServerKeepsStream(c: Config, s: State, l: Label, t: State)
    requires ValidConfig(c) && StreamInv(c, s.d) && Next(c, s, l) == Some(t)
    requires l.Receive? || l.Play?
    ensures StreamInv(c, t.d)
  {
    var d := s.d;
    if l.Receive? {
      Shift(d.played, d.srv, d.net, [], l.n);
      Shift(c.header + d.played, d.srv, d.net, [], l.n);
    } else {
      Shift([], d.played, d.srv, d.net, l.n);
      Shift(c.header, d.played, d.srv, d.net, l.n);
      assert c.header + d.played + d.srv + d.net == c.header + t.d.played + t.d.srv + t.d.net;
    }
    assert d.played + d.srv + d.net == t.d.played + t.d.srv + t.d.net;
  }

  // Sizes and counts.

  lemma AppKeepsSizes(c: Config, k: Control, d: Data, t: Control)
    requires ValidConfig(c) && ControlInv(k) && SizeInv(c, k, d)
    requires AppControl(k, d.pending != [], Room(c, d), MaxWrite(c) > 0, d.fifo != []) == Some(t)
    ensures SizeInv(c, t, AppData(c, k, d))
  {
    match k.app
    case FillStore =>
    case FillTestSpace =>
    case Flush =>
    case StopJoin =>
    case _ =>
  }

  lemma AppKeepsCount(c: Config, k: Control, d: Data, t: Control)
    requires ValidConfig(c) && ControlInv(k) && SizeInv(c, k, d) && CountInv(c, k, d)
    requires AppControl(k, d.pending != [], Room(c, d), MaxWrite(c) > 0, d.fifo != []) == Some(t)
    ensures CountInv(c, t, AppData(c, k, d))
  {
    match k.app
    case FillStore =>
    case Flush =>
    case _ =>
  }

  lemma WorkerKeepsSizes(c: Config, k: Control, d: Data, t: Control)
    requires ValidConfig(c) && ControlInv(k) && SizeInv(c, k, d) && CountInv(c, k, d)
    requires WorkerControl(k, c.chunk <= |d.fifo|) == Some(t)
    ensures SizeInv(c, t, WorkerData(c, k, d)) && CountInv(c, t, WorkerData(c, k, d))
  {
    match k.worker
    case Take =>
    case Count =>
    case _ =>
  }

  lemma OthersKeepSizes(c: Config, s: State, l: Label, t: State)
    requires ValidConfig(c) && Inv(c, s) && Next(c, s, l) == Some(t) && !l.AppStep? && !l.WorkerStep?
    ensures SizeInv(c, t.k, t.d) && CountInv(c, t.k, t.d)
  {
  }

  /** total_written moves by whole chunks only. */
  lemma CounterSteps(c: Config, s: State, l: Label, t: State)
    requires ValidConfig(c) && Next(c, s, l) == Some(t)
    ensures var n, n' := s.d.totalWritten, t.d.totalWritten;
            n' == n || n' == n + c.chunk || n' == 0
  {
  }

  lemma WholeChunksPreserved(c: Config, s: State, l: Label, t: State)
    requires ValidConfig(c) && WholeChunks(c, s.d) && Next(c, s, l) == Some(t)
    ensures WholeChunks(c, t.d)
  {
    CounterSteps(c, s, l, t);
    CounterWhole(s.d.totalWritten, t.d.totalWritten, c.chunk);
  }

  lemma CounterWhole(n: nat, n': nat, chunk: nat)
    requires chunk > 0 && n % chunk == 0 && (n' == n || n' == n + chunk || n' == 0)
    ensures n' % chunk == 0
  {
    AddMultiple(n, chunk);
  }

  lemma ServerPreserved(c: Config, s: State, l: Label, t: State)
    requires ValidConfig(c) && ServerInv(c, s.d) && Next(c, s, l) == Some(t)
    ensures ServerInv(c, t.d)
  {
    if l.Receive? {
      AddMultiple(|s.d.played|, c.serverChunk);
    }
  }

  lemma StepPreservesInv(c: Config, s: State, l: Label, t: State)
    requires ValidConfig(c) && Inv(c, s) && Next(c, s, l) == Some(t)
    ensures Inv(c, t)
  {
    ControlPreserved(c, s, l, t);
    WholeChunksPreserved(c, s, l, t);
    ServerPreserved(c, s, l, t);
    if l.AppStep? {
      AppKeepsStream(c, s.k, s.d);
      AppKeepsSizes(c, s.k, s.d, t.k);
      AppKeepsCount(c, s.k, s.d, t.k);
    } else if l.WorkerStep? {
      WorkerKeepsStream(c, s.k, s.d);
      WorkerKeepsSizes(c, s.k, s.d, t.k);
    } else {
      OthersKeepSizes(c, s, l, t);
      if l.WorkerSend? || l.FlushPiece? {
        SendKeepsStream(c, s, l, t);
      } else if l.Receive? || l.Play? {
        ServerKeepsStream(c, s, l, t);
      }
    }
  }

  lemma {:induction false} RunPreservesInv(c: Config, s: State, ls: seq<Label>, t: State)
    requires ValidConfig(c) && Inv(c, s) && Run(c, s, ls) == Some(t)
    ensures Inv(c, t)
    decreases |ls|
  {
    if ls != [] {
      var u := Next(c, s, ls[0]).value;
      StepPreservesInv(c, s, ls[0], u);
      RunPreservesInv(c, u, ls[1..], t);
    }
  }

  lemma ReachableInv(c: Config, s: State)
    requires ValidConfig(c) && Reachable(c, s)
    ensures Inv(c, s)
  {
    var ls :| Run(c, Init(c), ls) == Some(s);
    InitInv(c);
    RunPreservesInv(c, Init(c), ls, s);
  }

  lemma InitInv(c: Config)
    requires ValidConfig(c)
    ensures Inv(c, Init(c))
  {
  }
}
