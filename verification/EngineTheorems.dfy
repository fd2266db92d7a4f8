/** What the streaming engine promises its callers. */
module EngineTheorems {
  import opened Bytes
  import opened Engine
  import opened EngineSafety
  import opened EngineProgress

  /** The clamps of rsnd_get_backend_info make every configuration valid. */
  lemma ClampsGiveValidConfig(chunk: nat, bufferSize: nat, serverChunk: nat, capacity: nat, header: seq<Byte>)
    requires serverChunk >= 1 && capacity >= 1
    ensures var k := ClampChunk(chunk);
            ValidConfig(Config(k, ClampBuffer(bufferSize, k), serverChunk, capacity, header))
    ensures 1 <= chunk <= MAX_CHUNK_SIZE && 2 * chunk <= bufferSize
            ==> ClampChunk(chunk) == chunk && ClampBuffer(bufferSize, chunk) == bufferSize
    ensures !(1 <= chunk <= MAX_CHUNK_SIZE) ==> ClampChunk(chunk) == 1024
    ensures bufferSize < 2 * ClampChunk(chunk)
            ==> ClampBuffer(bufferSize, ClampChunk(chunk)) == 32 * ClampChunk(chunk)
  {
  }

  /** The write limit is zero for exactly one clamped configuration. */
  lemma WriteLimitZeroIff(c: Config)
    requires ValidConfig(c)
    ensures MaxWrite(c) == 0 <==> c.chunk == 1 && c.bufferSize == 2
    ensures c.bufferSize >= c.chunk + 2 ==> MaxWrite(c) > 0
  {
  }

  /** End-to-end safety in every reachable state. */
  lemma StreamSafety(c: Config, s: State)
    requires ValidConfig(c) && Reachable(c, s)
    ensures s.d.accepted == s.d.played + s.d.srv + s.d.net + s.d.unsent + s.d.flush + s.d.fifo
    ensures c.header + s.d.accepted == s.d.carried + s.d.unsent + s.d.flush + s.d.fifo
    ensures s.d.played <= s.d.accepted
    ensures s.d.totalWritten % c.chunk == 0
    ensures !s.k.app.FlushSend? && !s.k.app.ExecDone? && !s.k.app.Stopped? ==>
              |s.d.accepted| ==
                s.d.totalWritten + (if s.k.worker.Send? || s.k.worker.Count? then c.chunk else 0) + |s.d.fifo|
  {
    ReachableInv(c, s);
    var d := s.d;
    var front, back := d.played + d.srv + d.net, d.unsent + d.flush + d.fifo;
    assert d.accepted == front + back;
    assert c.header + (front + back) == (c.header + front) + back;
    assert c.header + front == d.carried;
    assert d.carried + back == d.carried + d.unsent + d.flush + d.fifo;
    assert d.accepted == d.played + (d.srv + d.net + back);
  }

  /** The assertions of rsnd_fifo_write and rsnd_fifo_read never fire. */
  lemma FifoAssertionsHold(c: Config, s: State)
    requires ValidConfig(c) && Reachable(c, s)
    ensures s.k.app.FillStore? ==> Piece(c, s.d) <= c.bufferSize - |s.d.fifo|
    ensures s.k.worker.Take? ==> c.chunk <= |s.d.fifo|
    ensures |s.d.fifo| <= c.bufferSize
  {
    ReachableInv(c, s);
  }

  // ----- rsd_write -----

  predicate InWrite(pc: AppPc) {
    InFill(pc) || pc.WriteLoop? || pc.FillNotify?
  }

  /** A call of rsd_write that will have stored `target` in all, under a nonzero write limit. */
  ghost predicate Writing(c: Config, s: State, target: seq<Byte>)
    requires ValidConfig(c)
  {
    && Inv(c, s) && s.k.active
    && (InWrite(s.k.app) || s.k.app.Idle?)
    && s.d.accepted + s.d.pending == target
  }

  lemma WritingControl(k: Control, more: bool, room: bool, left: bool, t: Control)
    requires ControlInv(k) && k.active && InWrite(k.app) && AppControl(k, more, room, true, left) == Some(t)
    ensures t.active && (InWrite(t.app) || t.app.Idle?)
  {
  }

  lemma AppKeepsTarget(c: Config, k: Control, d: Data)
    requires ValidConfig(c)
    ensures AppData(c, k, d).accepted + AppData(c, k, d).pending == d.accepted + d.pending
  {
    var p := Piece(c, d);
    assert d.accepted + d.pending[..p] + d.pending[p..] == d.accepted + d.pending;
  }

  lemma WritingStep(c: Config, s: State, l: Label, t: State, target: seq<Byte>)
    requires ValidConfig(c) && MaxWrite(c) > 0 && Writing(c, s, target) && !IsCall(l) && Next(c, s, l) == Some(t)
    ensures Writing(c, t, target)
  {
    StepPreservesInv(c, s, l, t);
    if l.AppStep? {
      WritingControl(s.k, s.d.pending != [], Room(c, s.d), s.d.fifo != [], t.k);
      AppKeepsTarget(c, s.k, s.d);
    } else {
      assert t.d.accepted == s.d.accepted && t.d.pending == s.d.pending;
    }
  }

  lemma {:induction false} WritingRun(c: Config, s: State, ls: seq<Label>, t: State, target: seq<Byte>)
    requires ValidConfig(c) && MaxWrite(c) > 0 && Writing(c, s, target) && NoCalls(ls) && Run(c, s, ls) == Some(t)
    ensures Writing(c, t, target)
    decreases |ls|
  {
    if ls != [] {
      var u := Next(c, s, ls[0]).value;
      WritingStep(c, s, ls[0], u, target);
      WritingRun(c, u, ls[1..], t, target);
    }
  }

  /**
   rsd_write is total and exact: under every schedule it returns after a bounded number of steps,
   having stored exactly its argument.
   */
  lemma WriteCompletes(c: Config, s: State, data: seq<Byte>, ls: seq<Label>, t: State)
    requires ValidConfig(c) && Reachable(c, s) && s.k.app.Idle? && MaxWrite(c) > 0
    requires NoCalls(ls) && Run(c, s, [CallWrite(data)] + ls) == Some(t)
    ensures |ls| <= Measure(c, Next(c, s, CallWrite(data)).value) + (RANKS + 1) * SpuriousCount(ls)
    ensures Quiescent(c, t) ==> t.k.app.Idle? && t.d.accepted == s.d.accepted + data
    ensures t.k.app.Idle? ==> t.d.accepted == s.d.accepted + data
    ensures s.d.accepted <= t.d.accepted <= s.d.accepted + data
  {
    ReachableInv(c, s);
    var u := Next(c, s, CallWrite(data)).value;
    assert ([CallWrite(data)] + ls)[1..] == ls;
    StepPreservesInv(c, s, CallWrite(data), u);
    RunIsBounded(c, u, ls, t);
    WritingRun(c, u, ls, t, s.d.accepted + data);
    AcceptedGrows(c, u, ls, t);
    RestWhenQuiescent(c, t);
  }

  lemma RestWhenQuiescent(c: Config, s: State)
    requires ValidConfig(c) && Inv(c, s)
    ensures Quiescent(c, s) ==> AtRest(s)
  {
    if !AtRest(s) {
      MoverEnabled(c, s);
    }
  }

  lemma {:induction false} AcceptedGrows(c: Config, s: State, ls: seq<Label>, t: State)
    requires ValidConfig(c) && Run(c, s, ls) == Some(t)
    ensures s.d.accepted <= t.d.accepted
    decreases |ls|
  {
    if ls != [] {
      AcceptedGrows(c, Next(c, s, ls[0]).value, ls[1..], t);
    }
  }

  /** The pieces stored along a run. */
  function Stores(c: Config, s: State, ls: seq<Label>): nat
    requires ValidConfig(c)
    decreases |ls|
  {
    if ls == [] || Next(c, s, ls[0]).None? then 0
    else (if ls[0].AppStep? && s.k.app.FillStore? then 1 else 0) + Stores(c, Next(c, s, ls[0]).value, ls[1..])
  }

  /** `left` bytes are what `k` full pieces leave of `all`, and none of the pieces was empty. */
  predicate PiecesLeave(all: nat, k: nat, limit: nat, left: nat) {
    left == Max(0, all - k * limit) && k * limit < all + limit
  }

  lemma PieceStep(c: Config, s: State, l: Label, t: State, target: seq<Byte>)
    requires ValidConfig(c) && MaxWrite(c) > 0 && Writing(c, s, target) && !IsCall(l) && Next(c, s, l) == Some(t)
    ensures if l.AppStep? && s.k.app.FillStore?
            then s.d.pending != [] && |t.d.pending| == Max(0, |s.d.pending| - MaxWrite(c))
            else t.d.pending == s.d.pending
  {
  }

  lemma OnePieceMore(all: nat, next: nat, k: nat, limit: nat, left: nat)
    requires all > 0 && next == Max(0, all - limit) && PiecesLeave(next, k, limit, left)
    requires next == 0 ==> k == 0
    ensures PiecesLeave(all, k + 1, limit, left)
  {
    assert (k + 1) * limit == k * limit + limit;
  }

  lemma PiecesBefore(c: Config, s: State, l: Label, u: State, target: seq<Byte>, k: nat, left: nat)
    requires ValidConfig(c) && MaxWrite(c) > 0 && Writing(c, s, target) && !IsCall(l) && Next(c, s, l) == Some(u)
    requires PiecesLeave(|u.d.pending|, k, MaxWrite(c), left) && (u.d.pending == [] ==> k == 0)
    ensures var n := k + if l.AppStep? && s.k.app.FillStore? then 1 else 0;
            PiecesLeave(|s.d.pending|, n, MaxWrite(c), left) && (s.d.pending == [] ==> n == 0)
  {
    PieceStep(c, s, l, u, target);
    if l.AppStep? && s.k.app.FillStore? {
      OnePieceMore(|s.d.pending|, |u.d.pending|, k, MaxWrite(c), left);
    }
  }

  lemma {:induction false} PiecesOfRun(c: Config, s: State, ls: seq<Label>, t: State, target: seq<Byte>)
    requires ValidConfig(c) && MaxWrite(c) > 0 && Writing(c, s, target) && NoCalls(ls) && Run(c, s, ls) == Some(t)
    ensures PiecesLeave(|s.d.pending|, Stores(c, s, ls), MaxWrite(c), |t.d.pending|)
    ensures s.d.pending == [] ==> Stores(c, s, ls) == 0
    decreases |ls|
  {
    if ls != [] {
      var u := Next(c, s, ls[0]).value;
      WritingStep(c, s, ls[0], u, target);
      PiecesOfRun(c, u, ls[1..], t, target);
      PiecesBefore(c, s, ls[0], u, target, Stores(c, u, ls[1..]), |t.d.pending|);
    }
  }

  /**
   rsd_write stores in pieces as large as its limit, the last one excepted: after `k` stores it has `k` limits stored,
   and a write that has returned took the least number of pieces, the length divided by the limit, rounded up.
   */
  lemma WriteInPieces(c: Config, s: State, data: seq<Byte>, ls: seq<Label>, t: State)
    requires ValidConfig(c) && Reachable(c, s) && s.k.app.Idle? && MaxWrite(c) > 0
    requires NoCalls(ls) && Run(c, s, [CallWrite(data)] + ls) == Some(t)
    ensures var u := Next(c, s, CallWrite(data)).value;
            PiecesLeave(|data|, Stores(c, u, ls), MaxWrite(c), |t.d.pending|)
    ensures t.k.app.Idle? ==> t.d.pending == []
  {
    ReachableInv(c, s);
    var u := Next(c, s, CallWrite(data)).value;
    assert ([CallWrite(data)] + ls)[1..] == ls;
    StepPreservesInv(c, s, CallWrite(data), u);
    PiecesOfRun(c, u, ls, t, s.d.accepted + data);
    WritingRun(c, u, ls, t, s.d.accepted + data);
  }

  // ----- rsd_exec and rsd_stop -----

  predicate InStop(pc: AppPc) {
    || pc.StopTest? || pc.StopLock? || pc.StopClear? || pc.StopSignal? || pc.StopUnlock? || pc.StopJoin?
    || AfterJoined(pc)
  }

  predicate StoppingControl(k: Control, goal: Goal) {
    && InStop(k.app) && k.goal == goal
    && (k.app.Stopped? ==> goal.Stop?)
    && (k.app.Flush? || k.app.FlushSend? || k.app.ExecDone? ==> goal.Exec?)
  }

  lemma StoppingAppStep(k: Control, more: bool, room: bool, stores: bool, left: bool, t: Control)
    requires StoppingControl(k, k.goal) && AppControl(k, more, room, stores, left) == Some(t)
    ensures StoppingControl(t, k.goal)
  {
  }

  lemma StoppingStep(c: Config, s: State, l: Label, t: State)
    requires ValidConfig(c) && StoppingControl(s.k, s.k.goal) && !IsCall(l) && Next(c, s, l) == Some(t)
    ensures StoppingControl(t.k, s.k.goal) && t.d.accepted == s.d.accepted
  {
    if l.AppStep? {
      StoppingAppStep(s.k, s.d.pending != [], Room(c, s.d), MaxWrite(c) > 0, s.d.fifo != [], t.k);
    }
  }

  lemma {:induction false} StoppingRun(c: Config, s: State, ls: seq<Label>, t: State)
    requires ValidConfig(c) && StoppingControl(s.k, s.k.goal) && NoCalls(ls) && Run(c, s, ls) == Some(t)
    ensures StoppingControl(t.k, s.k.goal) && t.d.accepted == s.d.accepted
    decreases |ls|
  {
    if ls != [] {
      var u := Next(c, s, ls[0]).value;
      StoppingStep(c, s, ls[0], u);
      StoppingRun(c, u, ls[1..], t);
    }
  }

  lemma ExecDoneCarriesAll(c: Config, s: State)
    requires ValidConfig(c) && Inv(c, s) && s.k.app.ExecDone?
    ensures s.d.carried == c.header + s.d.accepted
  {
    var d := s.d;
    assert d.played + d.srv + d.net + [] + [] + [] == d.played + d.srv + d.net;
    assert c.header + (d.played + d.srv + d.net) == c.header + d.played + d.srv + d.net;
  }

  /**
   Stopping never hangs, from any state between two calls and under every schedule: the worker exits,
   the join returns, and rsd_exec or rsd_stop comes to its end in a bounded number of steps. A finished
   rsd_exec has put on the data socket the WAV header and every accepted byte, in order.
   */
  lemma StopCompletes(c: Config, s: State, call: Label, ls: seq<Label>, t: State)
    requires ValidConfig(c) && Reachable(c, s) && s.k.app.Idle? && (call.CallExec? || call.CallStop?)
    requires NoCalls(ls) && Run(c, s, [call] + ls) == Some(t)
    ensures |ls| <= Measure(c, Next(c, s, call).value) + (RANKS + 1) * SpuriousCount(ls)
    ensures Quiescent(c, t) ==> t.k.worker.Exited? && t.k.app == (if call.CallExec? then ExecDone else Stopped)
    ensures t.k.app.ExecDone? ==> t.d.carried == c.header + s.d.accepted
    ensures t.k.app.Stopped? ==> t.d.totalWritten == 0
  {
    ReachableInv(c, s);
    var u := Next(c, s, call).value;
    assert ([call] + ls)[1..] == ls;
    StepPreservesInv(c, s, call, u);
    RunIsBounded(c, u, ls, t);
    StoppingRun(c, u, ls, t);
    RunPreservesInv(c, u, ls, t);
    RestWhenQuiescent(c, t);
    if t.k.app.ExecDone? {
      ExecDoneCarriesAll(c, t);
    }
  }

  /** With a zero write limit a non-empty rsd_write stores nothing and stops the stream. */
  predicate Refusing(c: Config, s: State, accepted: seq<Byte>)
    requires ValidConfig(c)
  {
    && s.d.accepted == accepted && s.k.active == !AfterClear(s.k.app)
    && (if InWrite(s.k.app) then s.d.pending != [] else StoppingControl(s.k, Stop))
  }

  lemma RefusingStep(c: Config, s: State, l: Label, t: State, accepted: seq<Byte>)
    requires ValidConfig(c) && MaxWrite(c) == 0 && Refusing(c, s, accepted)
    requires !IsCall(l) && Next(c, s, l) == Some(t)
    ensures Refusing(c, t, accepted)
  {
    if l.AppStep? && !InWrite(s.k.app) {
      StoppingAppStep(s.k, s.d.pending != [], Room(c, s.d), false, s.d.fifo != [], t.k);
    } else if l.AppStep? && s.k.app.FillStore? {
      assert Piece(c, s.d) == 0;
      assert s.d.accepted + s.d.pending[..0] == s.d.accepted;
    }
  }

  lemma {:induction false} RefusingRun(c: Config, s: State, ls: seq<Label>, t: State, accepted: seq<Byte>)
    requires ValidConfig(c) && MaxWrite(c) == 0 && Refusing(c, s, accepted) && NoCalls(ls)
    requires Run(c, s, ls) == Some(t)
    ensures Refusing(c, t, accepted)
    decreases |ls|
  {
    if ls != [] {
      var u := Next(c, s, ls[0]).value;
      RefusingStep(c, s, ls[0], u, accepted);
      RefusingRun(c, u, ls[1..], t, accepted);
    }
  }

  lemma ZeroLimitStopsStream(c: Config, s: State, data: seq<Byte>, ls: seq<Label>, t: State)
    requires ValidConfig(c) && Reachable(c, s) && s.k.app.Idle? && data != []
    requires MaxWrite(c) == 0
    requires NoCalls(ls) && Run(c, s, [CallWrite(data)] + ls) == Some(t)
    ensures t.d.accepted == s.d.accepted
    ensures Quiescent(c, t) ==> t.k.app.Stopped? && t.k.worker.Exited?
  {
    ReachableInv(c, s);
    var u := Next(c, s, CallWrite(data)).value;
    assert ([CallWrite(data)] + ls)[1..] == ls;
    StepPreservesInv(c, s, CallWrite(data), u);
    RefusingRun(c, u, ls, t, s.d.accepted);
    RunPreservesInv(c, u, ls, t);
    RestWhenQuiescent(c, t);
  }

  /**
   The server side of a drained stream: once nothing moves, it has played every whole server chunk and
   holds the rest, which receive_data drops when the connection closes.
   */
  lemma ServerPlaysWholeChunks(c: Config, s: State)
    requires ValidConfig(c) && Reachable(c, s) && Quiescent(c, s)
    ensures c.header + s.d.played + s.d.srv == s.d.carried
    ensures |s.d.srv| == (|s.d.carried| - |c.header|) % c.serverChunk
    ensures s.d.srv == [] <==> (|s.d.carried| - |c.header|) % c.serverChunk == 0
  {
    QuiescentIffAtRest(c, s);
    ReachableInv(c, s);
    var n := |s.d.played|;
    assert c.header + s.d.played + s.d.srv + [] == c.header + s.d.played + s.d.srv;
    assert n + |s.d.srv| == (n / c.serverChunk) * c.serverChunk + |s.d.srv|;
    DivModUnique(n + |s.d.srv|, n / c.serverChunk, |s.d.srv|, c.serverChunk);
  }
}
