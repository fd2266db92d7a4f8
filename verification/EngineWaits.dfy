/** When rsd_write waits, and when the worker oversleeps. */
module EngineWaits {
  import opened Bytes
  import opened Engine
  import opened EngineSafety
  import opened EngineProgress
  import opened EngineTheorems

  lemma {:induction false} RunConcat(c: Config, s: State, a: seq<Label>, b: seq<Label>)
    requires ValidConfig(c) && Run(c, s, a).Some?
    ensures Run(c, s, a + b) == Run(c, Run(c, s, a).value, b)
    decreases |a|
  {
    if a == [] {
      assert a + b == b;
    } else {
      assert (a + b)[1..] == a[1..] + b;
      RunConcat(c, Next(c, s, a[0]).value, a[1..], b);
    }
  }

  function Repeat(l: Label, n: nat): (ls: seq<Label>)
    ensures |ls| == n && forall i :: 0 <= i < n ==> ls[i] == l
  {
    if n == 0 then [] else [l] + Repeat(l, n - 1)
  }

  lemma RunRepeat(c: Config, s: State, l: Label, n: nat)
    requires ValidConfig(c) && Next(c, s, l).Some?
    ensures Run(c, s, Repeat(l, n + 1)) == Run(c, Next(c, s, l).value, Repeat(l, n))
  {
    assert Repeat(l, n + 1)[1..] == Repeat(l, n);
  }

  // ----- rsd_get_avail -----

  /** rsd_get_avail. */
  function GetAvail(c: Config, d: Data): int { c.bufferSize - |d.fifo| }

  /** The application found no room: it is on its way to sleep, asleep, or waking up. */
  predicate Waits(pc: AppPc) {
    pc.FillLock? || pc.FillSignal? || pc.FillWait? || pc.FillAsleep? || pc.FillReacquire? || pc.FillUnlock?
  }

  predicate Unhindered(c: Config, s: State) {
    !Waits(s.k.app) && (InWrite(s.k.app) ==> |s.d.pending| <= GetAvail(c, s.d))
  }

  lemma UnhinderedStep(c: Config, s: State, l: Label, t: State)
    requires ValidConfig(c) && Unhindered(c, s) && !IsCall(l) && Next(c, s, l) == Some(t)
    ensures Unhindered(c, t)
  {
    if l.AppStep? {
      UnhinderedControl(s.k, s.d.pending != [], Room(c, s.d), MaxWrite(c) > 0, s.d.fifo != [], t.k);
      AppKeepsLoad(c, s.k, s.d);
    } else if !l.WorkerStep? {
      assert t.d.pending == s.d.pending && t.d.fifo == s.d.fifo;
    }
  }

  lemma UnhinderedControl(k: Control, more: bool, room: bool, stores: bool, left: bool, t: Control)
    requires !Waits(k.app) && AppControl(k, more, room, stores, left) == Some(t)
    ensures Waits(t.app) ==> k.app.FillTestSpace? && !room
    ensures InWrite(t.app) ==> InWrite(k.app)
  {
  }

  lemma AppKeepsLoad(c: Config, k: Control, d: Data)
    requires ValidConfig(c)
    ensures |AppData(c, k, d).fifo| + |AppData(c, k, d).pending| <= |d.fifo| + |d.pending|
  {
  }

  lemma {:induction false} UnhinderedRun(c: Config, s: State, ls: seq<Label>, t: State)
    requires ValidConfig(c) && Unhindered(c, s) && NoCalls(ls) && Run(c, s, ls) == Some(t)
    ensures !Waits(t.k.app)
    decreases |ls|
  {
    if ls != [] {
      var u := Next(c, s, ls[0]).value;
      UnhinderedStep(c, s, ls[0], u);
      UnhinderedRun(c, u, ls[1..], t);
    }
  }

  /** From the loop head the application takes three statements to the store or to the lock of its wait. */
  lemma IntoFill(c: Config, s: State, n: nat)
    requires ValidConfig(c) && s.k.app.WriteLoop? && s.k.active && s.d.pending != []
    ensures var t := s.(k := s.k.(app := if Room(c, s.d) then FillStore else FillLock));
            Run(c, s, Repeat(AppStep, n + 3)) == Run(c, t, Repeat(AppStep, n))
  {
    RunRepeat(c, s, AppStep, n + 2);
    RunRepeat(c, s.(k := s.k.(app := FillTestActive)), AppStep, n + 1);
    RunRepeat(c, s.(k := s.k.(app := FillTestSpace)), AppStep, n);
  }

  /** And two more through the store and its signal, back to the loop head. */
  lemma OutOfFill(c: Config, s: State, n: nat)
    requires ValidConfig(c) && MaxWrite(c) > 0 && s.k.app.FillStore?
    ensures var t := State(WakeWorker(s.k).(app := WriteLoop), AppData(c, s.k, s.d));
            Run(c, s, Repeat(AppStep, n + 2)) == Run(c, t, Repeat(AppStep, n))
  {
    RunRepeat(c, s, AppStep, n + 1);
    RunRepeat(c, State(s.k.(app := FillNotify), AppData(c, s.k, s.d)), AppStep, n);
  }

  predicate SameButLoad(d: Data, e: Data) {
    d.(fifo := [], pending := [], accepted := []) == e.(fifo := [], pending := [], accepted := [])
  }

  lemma AloneStored(c: Config, s: State, t: State)
    requires ValidConfig(c) && MaxWrite(c) > 0 && s.k.app.FillStore? && Room(c, s.d)
    requires |s.d.pending| > GetAvail(c, s.d) >= 0
    requires t == State(WakeWorker(s.k).(app := WriteLoop), AppData(c, s.k, s.d))
    ensures |t.d.pending| < |s.d.pending| && |t.d.pending| > GetAvail(c, t.d) && |t.d.fifo| <= c.bufferSize
    ensures SameButLoad(s.d, t.d) && t.k.active == s.k.active
    ensures !s.k.worker.Asleep? ==> t.k == s.k.(app := WriteLoop)
    ensures !t.k.worker.Asleep?
  {
  }

  lemma AloneLocks(c: Config, s: State)
    requires ValidConfig(c) && s.k.app.WriteLoop? && s.k.active && s.d.pending != [] && !Room(c, s.d)
    ensures Run(c, s, Repeat(AppStep, 3)) == Some(s.(k := s.k.(app := FillLock)))
  {
    IntoFill(c, s, 0);
  }

  lemma AloneStores(c: Config, s: State) returns (t: State)
    requires ValidConfig(c) && MaxWrite(c) > 0 && Room(c, s.d)
    requires s.k.app.WriteLoop? && s.k.active && |s.d.pending| > GetAvail(c, s.d) >= 0
    ensures Run(c, s, Repeat(AppStep, 5)) == Some(t) && t.k.app.WriteLoop? && t.k.active
    ensures |t.d.pending| < |s.d.pending| && |t.d.pending| > GetAvail(c, t.d) && |t.d.fifo| <= c.bufferSize
    ensures SameButLoad(s.d, t.d) && !t.k.worker.Asleep? && (!s.k.worker.Asleep? ==> t.k == s.k)
  {
    var stored := s.(k := s.k.(app := FillStore));
    t := State(WakeWorker(stored.k).(app := WriteLoop), AppData(c, stored.k, s.d));
    IntoFill(c, s, 2);
    OutOfFill(c, stored, 0);
    AloneStored(c, stored, t);
  }

  /** From the loop head, with more bytes than room, the application alone runs into the wait. */
  lemma {:induction false} AloneIntoWait(c: Config, s: State) returns (ls: seq<Label>)
    requires ValidConfig(c) && MaxWrite(c) > 0
    requires s.k.app.WriteLoop? && s.k.active && |s.d.fifo| <= c.bufferSize
    requires |s.d.pending| > GetAvail(c, s.d)
    ensures NoCalls(ls) && Run(c, s, ls).Some? && Waits(Run(c, s, ls).value.k.app)
    ensures var t := Run(c, s, ls).value;
            && t.k.app.FillLock? && !Room(c, t.d) && |t.d.fifo| <= c.bufferSize && SameButLoad(s.d, t.d)
            && (!s.k.worker.Asleep? ==> t.k == s.k.(app := FillLock))
    decreases |s.d.pending|
  {
    if !Room(c, s.d) {
      AloneLocks(c, s);
      ls := Repeat(AppStep, 3);
    } else {
      var next := AloneStores(c, s);
      var rest := AloneIntoWait(c, next);
      RunConcat(c, s, Repeat(AppStep, 5), rest);
      ls := Repeat(AppStep, 5) + rest;
    }
  }

  /**
   rsd_get_avail tells how much rsd_write takes without blocking: a write of `data` can be made to
   wait by some schedule exactly when it is longer than that.
   */
  lemma WriteMayWaitIff(c: Config, s: State, data: seq<Byte>)
    requires ValidConfig(c) && Reachable(c, s) && s.k.app.Idle? && MaxWrite(c) > 0
    ensures (exists ls, t :: NoCalls(ls) && Run(c, s, [CallWrite(data)] + ls) == Some(t) && Waits(t.k.app))
            <==> |data| > GetAvail(c, s.d)
  {
    ReachableInv(c, s);
    var u := Next(c, s, CallWrite(data)).value;
    forall ls, t | NoCalls(ls) && Run(c, s, [CallWrite(data)] + ls) == Some(t) && |data| <= GetAvail(c, s.d)
      ensures !Waits(t.k.app)
    {
      assert ([CallWrite(data)] + ls)[1..] == ls;
      UnhinderedRun(c, u, ls, t);
    }
    if |data| > GetAvail(c, s.d) {
      var ls := AloneIntoWait(c, u);
      assert ([CallWrite(data)] + ls)[1..] == ls;
      assert Run(c, s, [CallWrite(data)] + ls) == Some(Run(c, u, ls).value);
    }
  }

  // ----- how many chunks release a blocked writer -----

  /** The chunks the worker takes from the FIFO along a run. */
  function Takes(c: Config, s: State, ls: seq<Label>): nat
    requires ValidConfig(c)
    decreases |ls|
  {
    if ls == [] || Next(c, s, ls[0]).None? then 0
    else (if ls[0].WorkerStep? && s.k.worker.Take? then 1 else 0) + Takes(c, Next(c, s, ls[0]).value, ls[1..])
  }

  lemma TakeStep(c: Config, s: State, l: Label, t: State, target: seq<Byte>)
    requires ValidConfig(c) && MaxWrite(c) > 0 && Writing(c, s, target) && !IsCall(l) && Next(c, s, l) == Some(t)
    requires t.d.accepted == s.d.accepted
    ensures t.d.pending == s.d.pending
    ensures |s.d.fifo| == |t.d.fifo| + if l.WorkerStep? && s.k.worker.Take? then c.chunk else 0
  {
    if l.AppStep? && s.k.app.FillStore? {
      assert |s.d.accepted + s.d.pending[..Piece(c, s.d)]| > |s.d.accepted|;
    }
  }

  lemma {:induction false} TakesShrink(c: Config, s: State, ls: seq<Label>, t: State, target: seq<Byte>)
    requires ValidConfig(c) && MaxWrite(c) > 0 && Writing(c, s, target) && NoCalls(ls) && Run(c, s, ls) == Some(t)
    requires t.d.accepted == s.d.accepted
    ensures t.d.pending == s.d.pending && |s.d.fifo| == |t.d.fifo| + Takes(c, s, ls) * c.chunk
    decreases |ls|
  {
    if ls != [] {
      var u := Next(c, s, ls[0]).value;
      AcceptedGrows(c, s, ls[..1], u);
      AcceptedGrows(c, u, ls[1..], t);
      TakeStep(c, s, ls[0], u, target);
      WritingStep(c, s, ls[0], u, target);
      TakesShrink(c, u, ls[1..], t, target);
      OneMore(Takes(c, u, ls[1..]), c.chunk);
    }
  }

  lemma OneMore(n: nat, m: nat)
    ensures (n + 1) * m == n * m + m
  {
  }

  // ----- how many chunks follow a stop -----

  lemma InactiveStep(c: Config, s: State, l: Label, t: State)
    requires ValidConfig(c) && Inv(c, s) && !s.k.active && !IsCall(l) && Next(c, s, l) == Some(t)
    ensures !t.k.active && (t.k.worker.Take? ==> s.k.worker.Take? && !l.WorkerStep?)
  {
    if l.AppStep? {
      StepPreservesInv(c, s, l, t);
    }
  }

  /** Once thread_active is clear the worker takes no chunk, unless it stood right before the read: then that one. */
  lemma {:induction false} StopTakesNoMore(c: Config, s: State, ls: seq<Label>, t: State)
    requires ValidConfig(c) && Inv(c, s) && !s.k.active && NoCalls(ls) && Run(c, s, ls) == Some(t)
    ensures Takes(c, s, ls) <= if s.k.worker.Take? then 1 else 0
    decreases |ls|
  {
    if ls != [] {
      var u := Next(c, s, ls[0]).value;
      StepPreservesInv(c, s, ls[0], u);
      InactiveStep(c, s, ls[0], u);
      StopTakesNoMore(c, u, ls[1..], t);
    }
  }

  // ----- the lost wake-up -----

  /** Between the worker's failed test and its wait, where a signal without cond_mutex is lost. */
  predicate Deaf(w: WorkerPc) {
    w.TestActive? || w.LockCond? || w.SignalCond? || w.Retest? || w.WaitCond?
  }

  /** After the last signal of a write: nobody will wake the worker. */
  predicate Unattended(k: Control, d: Data) {
    k.active && (k.app.WriteLoop? || k.app.Idle?) && d.pending == []
  }

  lemma UnattendedStep(c: Config, s: State, l: Label, t: State)
    requires ValidConfig(c) && Inv(c, s) && Unattended(s.k, s.d) && IsInternal(l) && Next(c, s, l) == Some(t)
    ensures Unattended(t.k, t.d) && t.d.accepted == s.d.accepted
    ensures Deaf(s.k.worker) || s.k.worker.Asleep? ==>
              (Deaf(t.k.worker) || t.k.worker.Asleep?) && t.d.fifo == s.d.fifo
    ensures (Deaf(s.k.worker) || s.k.worker.Asleep? ==> |s.d.fifo| < c.chunk) ==>
              (Deaf(t.k.worker) || t.k.worker.Asleep? ==> |t.d.fifo| < c.chunk)
  {
  }

  lemma {:induction false} UnattendedRun(c: Config, s: State, ls: seq<Label>, t: State)
    requires ValidConfig(c) && Inv(c, s) && Unattended(s.k, s.d)
    requires (forall i :: 0 <= i < |ls| ==> IsInternal(ls[i])) && Run(c, s, ls) == Some(t)
    ensures Inv(c, t) && Unattended(t.k, t.d) && t.d.accepted == s.d.accepted
    ensures Deaf(s.k.worker) || s.k.worker.Asleep? ==> t.d.fifo == s.d.fifo
    ensures (Deaf(s.k.worker) || s.k.worker.Asleep? ==> |s.d.fifo| < c.chunk) ==>
              (Deaf(t.k.worker) || t.k.worker.Asleep? ==> |t.d.fifo| < c.chunk)
    decreases |ls|
  {
    if ls != [] {
      var u := Next(c, s, ls[0]).value;
      StepPreservesInv(c, s, ls[0], u);
      UnattendedStep(c, s, ls[0], u);
      UnattendedRun(c, u, ls[1..], t);
    }
  }

  /** What is left of `fifo` when as many whole chunks as it holds have been taken from its front. */
  function Remainder(c: Config, fifo: seq<Byte>): seq<Byte>
    requires ValidConfig(c)
  {
    fifo[|fifo| - |fifo| % c.chunk..]
  }

  predicate AllInternal(ls: seq<Label>) { forall i :: 0 <= i < |ls| ==> IsInternal(ls[i]) }

  /** Two ends of the same accepted bytes that differ by whole chunks. */
  lemma ChunksTaken(c: Config, s: State, t: State)
    requires ValidConfig(c) && Inv(c, s) && Inv(c, t) && t.d.accepted == s.d.accepted
    requires !AfterJoined(s.k.app) && t.k.app.Idle? && t.k.worker.Asleep? && |t.d.fifo| < c.chunk
    ensures t.d.fifo == Remainder(c, s.d.fifo)
  {
    TakenCount(c, s);
    TakenCount(c, t);
    var x := BeforeFifo(c, s);
    var y := BeforeFifo(c, t);
    RestIsRemainder(c, x, s.d.fifo, y, t.d.fifo, Taken(c, s), Taken(c, t));
  }

  lemma BeforeFifo(c: Config, s: State) returns (x: seq<Byte>)
    requires ValidConfig(c) && Inv(c, s)
    ensures x + s.d.fifo == s.d.accepted
  {
    x := s.d.played + s.d.srv + s.d.net + s.d.unsent + s.d.flush;
  }

  lemma RestIsRemainder(c: Config, x: seq<Byte>, f: seq<Byte>, y: seq<Byte>, g: seq<Byte>, a: nat, b: nat)
    requires ValidConfig(c) && x + f == y + g && |g| < c.chunk
    requires |f| + a == |g| + b && a % c.chunk == 0 && b % c.chunk == 0
    ensures g == Remainder(c, f)
  {
    SameRemainder(|f|, |g|, a, b, c.chunk);
    SameTail(x, f, y, g);
  }

  /** The bytes the worker has taken from the FIFO. */
  function Taken(c: Config, s: State): nat {
    s.d.totalWritten + if s.k.worker.Send? || s.k.worker.Count? then c.chunk else 0
  }

  lemma TakenCount(c: Config, s: State)
    requires ValidConfig(c) && Inv(c, s) && !AfterJoined(s.k.app)
    ensures |s.d.accepted| == Taken(c, s) + |s.d.fifo| && Taken(c, s) % c.chunk == 0
  {
    AddMultiple(s.d.totalWritten, c.chunk);
  }

  lemma SameRemainder(n: nat, n': nat, a: nat, b: nat, chunk: nat)
    requires chunk > 0 && n + a == n' + b && a % chunk == 0 && b % chunk == 0 && n' < chunk
    ensures n' == n % chunk && n' <= n
  {
    var q := b / chunk - a / chunk;
    assert b == b / chunk * chunk && a == a / chunk * chunk;
    assert n == q * chunk + n';
    DivModUnique(n, q, n', chunk);
  }

  lemma SameTail(x: seq<Byte>, f: seq<Byte>, y: seq<Byte>, g: seq<Byte>)
    requires x + f == y + g && |g| <= |f|
    ensures g == f[|f| - |g|..]
  {
    assert |x| <= |y|;
    forall i | 0 <= i < |g| ensures g[i] == f[|f| - |g| + i] {
      assert (y + g)[|y| + i] == (x + f)[|x| + (|f| - |g| + i)];
    }
  }

  /**
   After the last signal of a write: a deaf worker leaves the whole FIFO, any other only its remainder by the
   chunk size.
   */
  lemma AfterLastSignal(c: Config, s: State, ls: seq<Label>, t: State)
    requires ValidConfig(c) && MaxWrite(c) > 0 && Inv(c, s)
    requires s.k.app.FillNotify? && s.k.active && s.d.pending == [] && AllInternal(ls)
    requires Run(c, s, [AppStep] + ls) == Some(t) && Quiescent(c, t)
    ensures t.k.app.Idle?
    ensures t.d.fifo == if Deaf(s.k.worker) then s.d.fifo else Remainder(c, s.d.fifo)
  {
    var u := Next(c, s, AppStep).value;
    assert ([AppStep] + ls)[1..] == ls;
    StepPreservesInv(c, s, AppStep, u);
    UnattendedRun(c, u, ls, t);
    RestWhenQuiescent(c, t);
    if !Deaf(s.k.worker) {
      ChunksTaken(c, s, t);
    }
  }

  /**
   rsnd_fill_buffer signals after its store without holding cond_mutex, so the signal can be lost. When
   the last piece of a write leaves a whole chunk in the FIFO, and the system has come to rest, the whole
   FIFO is still there exactly when that signal found the worker between its failed test and its wait;
   otherwise every whole chunk has been taken.
   */
  lemma ChunkLeftBehindIff(c: Config, s: State, ls: seq<Label>, t: State)
    requires ValidConfig(c) && MaxWrite(c) > 0 && Reachable(c, s)
    requires s.k.app.FillNotify? && s.d.pending == [] && c.chunk <= |s.d.fifo|
    requires AllInternal(ls)
    requires Run(c, s, [AppStep] + ls) == Some(t) && Quiescent(c, t)
    ensures t.k.app.Idle?
    ensures |t.d.fifo| >= c.chunk <==> Deaf(s.k.worker)
    ensures t.d.fifo == if Deaf(s.k.worker) then s.d.fifo else Remainder(c, s.d.fifo)
  {
    ReachableInv(c, s);
    AfterLastSignal(c, s, ls, t);
  }

  /** What a caller can check: a write that leaves less than a chunk in all never leaves one behind. */
  lemma SmallWriteLeavesLess(c: Config, s: State, data: seq<Byte>, ls: seq<Label>, t: State)
    requires ValidConfig(c) && s.k.app.Idle? && |s.d.fifo| + |data| < c.chunk
    requires NoCalls(ls) && Run(c, s, [CallWrite(data)] + ls) == Some(t)
    ensures |t.d.fifo| < c.chunk
  {
    assert ([CallWrite(data)] + ls)[1..] == ls;
    LoadShrinks(c, Next(c, s, CallWrite(data)).value, ls, t);
  }

  lemma {:induction false} LoadShrinks(c: Config, s: State, ls: seq<Label>, t: State)
    requires ValidConfig(c) && NoCalls(ls) && Run(c, s, ls) == Some(t)
    ensures |t.d.fifo| + |t.d.pending| <= |s.d.fifo| + |s.d.pending|
    decreases |ls|
  {
    if ls != [] {
      var u := Next(c, s, ls[0]).value;
      LoadStep(c, s, ls[0], u);
      LoadShrinks(c, u, ls[1..], t);
    }
  }

  lemma LoadStep(c: Config, s: State, l: Label, t: State)
    requires ValidConfig(c) && !IsCall(l) && Next(c, s, l) == Some(t)
    ensures |t.d.fifo| + |t.d.pending| <= |s.d.fifo| + |s.d.pending|
  {
    if l.AppStep? {
      AppKeepsLoad(c, s.k, s.d);
    }
  }

  // ----- the next write -----

  /** The worker sleeps, the wire is empty, and a write that fits in one piece is on its way to the FIFO. */
  predicate Alone(c: Config, s: State)
    requires ValidConfig(c)
  {
    && s.k.active && s.k.worker.Asleep? && s.d.net == [] && !s.d.playing
    && (s.k.app.WriteLoop? || s.k.app.FillTestActive? || s.k.app.FillTestSpace? || s.k.app.FillStore?)
    && s.d.pending != [] && |s.d.pending| <= MaxWrite(c) && Room(c, s.d)
  }

  lemma RestedApp(c: Config, s: State)
    requires ValidConfig(c) && Quiescent(c, s)
    ensures Next(c, s, AppStep) == None
  {
  }

  /** Only the application can move, and it moves on to the store and its signal. */
  lemma AloneStep(c: Config, s: State, l: Label, t: State)
    requires ValidConfig(c) && Alone(c, s) && IsInternal(l) && Next(c, s, l) == Some(t)
    ensures l.AppStep?
    ensures !s.k.app.FillStore? ==> Alone(c, t) && t.d == s.d
    ensures s.k.app.FillStore? ==>
              && t.k == s.k.(app := FillNotify) && t.d.pending == []
              && t.d.fifo == s.d.fifo + s.d.pending && t.d.net == [] && !t.d.playing
  {
    var p := s.d.pending;
    assert p[..|p|] == p;
  }

  lemma {:induction false} AloneRun(c: Config, s: State, ls: seq<Label>, t: State)
    requires ValidConfig(c) && Inv(c, s) && Alone(c, s) && AllInternal(ls)
    requires Run(c, s, ls) == Some(t) && Quiescent(c, t)
    ensures t.k.app.Idle? && t.d.fifo == Remainder(c, s.d.fifo + s.d.pending)
    decreases |ls|
  {
    RestedApp(c, t);
    if ls != [] {
      var u := Next(c, s, ls[0]).value;
      AloneStep(c, s, ls[0], u);
      StepPreservesInv(c, s, ls[0], u);
      if s.k.app.FillStore? {
        SignalNext(c, u, ls[1..], t);
      } else {
        AloneRun(c, u, ls[1..], t);
      }
    }
  }

  lemma SignalNext(c: Config, s: State, ls: seq<Label>, t: State)
    requires ValidConfig(c) && MaxWrite(c) > 0 && Inv(c, s) && AllInternal(ls)
    requires s.k.app.FillNotify? && s.k.active && s.d.pending == []
    requires s.k.worker.Asleep? && s.d.net == [] && !s.d.playing
    requires Run(c, s, ls) == Some(t) && Quiescent(c, t)
    ensures t.k.app.Idle? && t.d.fifo == Remainder(c, s.d.fifo)
  {
    RestedApp(c, t);
    if ls != [] {
      assert Next(c, s, ls[0]).Some? && ls[0].AppStep?;
      assert ls == [AppStep] + ls[1..];
      AfterLastSignal(c, s, ls[1..], t);
    }
  }

  /**
   A chunk left behind is not lost: from rest, the next non-empty write that fits in one piece wakes the worker, and
   when the system is at rest again every whole chunk, the old ones included, has been taken. An empty write does not.
   */
  lemma NextWriteDrains(c: Config, s: State, data: seq<Byte>, ls: seq<Label>, t: State)
    requires ValidConfig(c) && Reachable(c, s) && Quiescent(c, s) && s.k.app.Idle?
    requires |data| <= MaxWrite(c) && |data| <= GetAvail(c, s.d) && AllInternal(ls)
    requires Run(c, s, [CallWrite(data)] + ls) == Some(t) && Quiescent(c, t)
    ensures t.d.fifo == if data == [] then s.d.fifo else Remainder(c, s.d.fifo + data)
  {
    ReachableInv(c, s);
    QuiescentIffAtRest(c, s);
    var u := Next(c, s, CallWrite(data)).value;
    assert ([CallWrite(data)] + ls)[1..] == ls;
    StepPreservesInv(c, s, CallWrite(data), u);
    if data == [] {
      UnattendedRun(c, u, ls, t);
    } else {
      AloneRun(c, u, ls, t);
    }
  }

  /** The run that loses the signal: the worker tests too early, the write comes and goes, then it sleeps. */
  function LosingRun(data: seq<Byte>): seq<Label> {
    Repeat(WorkerStep, 2) + ([CallWrite(data)] + (Repeat(AppStep, 6) + Repeat(WorkerStep, 5)))
  }

  lemma WriteWhileDeaf(c: Config, s: State, t: State)
    requires ValidConfig(c) && 3 * c.chunk <= c.bufferSize && |s.d.pending| == c.chunk && s.d.fifo == []
    requires s.k == Control(WriteLoop, TestActive, Stop, true, Free)
    requires t == State(s.k.(app := Idle),
                        s.d.(pending := [], fifo := s.d.pending, accepted := s.d.accepted + s.d.pending))
    ensures Run(c, s, Repeat(AppStep, 6)) == Some(t)
  {
    var stored := s.(k := s.k.(app := FillStore));
    IntoFill(c, s, 3);
    OutOfFill(c, stored, 1);
    StoreAll(c, stored);
    RunRepeat(c, State(s.k, t.d), AppStep, 0);
  }

  lemma StoreAll(c: Config, s: State)
    requires ValidConfig(c) && s.k.app.FillStore? && s.d.fifo == [] && |s.d.pending| <= MaxWrite(c)
    ensures AppData(c, s.k, s.d)
         == s.d.(pending := [], fifo := s.d.pending, accepted := s.d.accepted + s.d.pending)
  {
    var p := s.d.pending;
    assert p[..|p|] == p && [] + p == p;
  }

  /** Out of the inner loop, the worker takes the lock and signals. */
  lemma IntoCond(c: Config, s: State, n: nat)
    requires ValidConfig(c) && s.k == Control(Idle, TestActive, Stop, true, Free)
    ensures var t := s.(k := s.k.(worker := Retest, condMutex := HeldByWorker));
            Run(c, s, Repeat(WorkerStep, n + 3)) == Run(c, t, Repeat(WorkerStep, n))
  {
    RunRepeat(c, s, WorkerStep, n + 2);
    RunRepeat(c, s.(k := s.k.(worker := LockCond)), WorkerStep, n + 1);
    RunRepeat(c, s.(k := s.k.(worker := SignalCond, condMutex := HeldByWorker)), WorkerStep, n);
  }

  lemma FallAsleep(c: Config, s: State)
    requires ValidConfig(c) && s.k == Control(Idle, TestActive, Stop, true, Free)
    ensures Run(c, s, Repeat(WorkerStep, 5)) == Some(s.(k := s.k.(worker := Asleep)))
  {
    IntoCond(c, s, 2);
    RunRepeat(c, s.(k := s.k.(worker := Retest, condMutex := HeldByWorker)), WorkerStep, 1);
    RunRepeat(c, s.(k := s.k.(worker := WaitCond, condMutex := HeldByWorker)), WorkerStep, 0);
  }

  /** It happens: a whole chunk accepted, nothing sent, nothing moving. */
  lemma ChunkLeftBehindHappens(c: Config, data: seq<Byte>)
    requires ValidConfig(c) && 3 * c.chunk <= c.bufferSize && |data| == c.chunk
    ensures exists t :: Run(c, Init(c), LosingRun(data)) == Some(t)
                        && Quiescent(c, t) && t.d.fifo == data && t.d.carried == c.header
  {
    var s0 := Init(c);
    var s1 := s0.(k := s0.k.(worker := TestAvail));
    var s2 := s0.(k := s0.k.(worker := TestActive));
    RunRepeat(c, s0, WorkerStep, 1);
    RunRepeat(c, s1, WorkerStep, 0);
    var s3 := State(s2.k.(app := WriteLoop), s2.d.(pending := data));
    var s4 := State(s2.k, s2.d.(fifo := data, accepted := [] + data));
    WriteWhileDeaf(c, s3, s4);
    FallAsleep(c, s4);
    var t := State(s4.k.(worker := Asleep), s4.d);
    var tail := Repeat(AppStep, 6) + Repeat(WorkerStep, 5);
    RunConcat(c, s3, Repeat(AppStep, 6), Repeat(WorkerStep, 5));
    assert ([CallWrite(data)] + tail)[1..] == tail;
    RunConcat(c, s0, Repeat(WorkerStep, 2), [CallWrite(data)] + tail);
    assert Run(c, s0, LosingRun(data)) == Some(t);
    assert Reachable(c, t);
    QuiescentIffAtRest(c, t);
  }
}
