/**
 Progress of the engine under every schedule: each step that is neither a new call nor a spurious
 wake-up makes a natural number smaller, so no fairness assumption is needed for termination.
 */
module EngineProgress {
  import opened Bytes
  import opened Engine
  import opened EngineSafety

  /** How far the bytes still have to travel. */
  function Distance(d: Data): nat {
    5 * |d.pending| + 4 * |d.fifo| + 3 * (|d.unsent| + |d.flush|) + 2 * |d.net| + |d.srv|
  }

  /** rsd_write has a piece that does not fit: only the worker can change that. */
  predicate Blocked(app: AppPc, more: bool, room: bool) {
    (InFill(app) || app.WriteLoop? || app.FillNotify?) && more && !room
  }

  /** Statements until the worker takes a chunk, given that a whole one is there. */
  function ToTake(w: WorkerPc): nat {
    match w
    case Take => 1
    case TestCancelAgain => 2
    case TestAvail => 3
    case TestCancel => 4
    case Notify => 5
    case UnlockCond => 5
    case Count => 6
    case Reacquire => 6
    case Send => 7
    case Asleep => 7
    case WaitCond => 8
    case Retest => 9
    case SignalCond => 10
    case LockCond => 11
    case TestActive => 12
    case _ => 0
  }

  /** Statements until a blocked application sleeps. */
  function ToSleep(a: AppPc): nat {
    match a
    case FillWait => 1
    case FillSignal => 2
    case FillLock => 3
    case FillTestSpace => 4
    case FillTestActive => 5
    case WriteLoop => 6
    case FillUnlock => 6
    case FillNotify => 7
    case FillReacquire => 7
    case _ => 0
  }

  /** Statements until an application that is not blocked stores a piece, returns or stops the worker. */
  function ToStore(a: AppPc, stores: bool): nat {
    match a
    case StopClear => 1
    case StopLock => 2
    case StopTest => 3
    case FillStore => 5
    case FillTestSpace => 6
    case FillTestActive => 7
    case FillUnlock => 8
    case WriteLoop => 8
    case FillNotify => if stores then 9 else 4
    case FillReacquire => 9
    case FillAsleep => 10
    case FillWait => 11
    case FillSignal => 12
    case FillLock => 13
    case _ => 0
  }

  /** Statements until the worker takes a chunk or sleeps. */
  function ToRest(w: WorkerPc): nat {
    match w
    case WaitCond => 1
    case Retest => 2
    case SignalCond => 3
    case LockCond => 4
    case TestActive => 5
    case Take => 6
    case TestCancelAgain => 7
    case TestAvail => 8
    case TestCancel => 9
    case Notify => 10
    case UnlockCond => 10
    case Count => 11
    case Reacquire => 11
    case Send => 12
    case _ => 0
  }

  /** Statements until the worker has exited, once thread_active is cleared. */
  function ToExit(w: WorkerPc): nat {
    match w
    case Exited => 0
    case SignalExit => 1
    case TestActive => 2
    case TestCancel => 3
    case TestAvail => 3
    case TestCancelAgain => 3
    case Notify => 4
    case UnlockCond => 4
    case Count => 5
    case Retest => 5
    case Reacquire => 5
    case Send => 6
    case SignalCond => 6
    case Asleep => 6
    case Take => 7
    case LockCond => 7
    case WaitCond => 7
  }

  function ToDone(a: AppPc): nat {
    match a
    case FlushSend => 1
    case Flush => 2
    case StopJoin => 3
    case StopUnlock => 4
    case StopSignal => 5
    case _ => 0
  }

  const RANKS := 400

  /** Bounds the statements that can run before a byte moves. */
  function Rank(k: Control, more: bool, room: bool, stores: bool): (r: nat)
    ensures r < RANKS
  {
    if !k.active then ToDone(k.app) + ToExit(k.worker)
    else if Blocked(k.app, more, room) then 40 + 10 * ToTake(k.worker) + ToSleep(k.app)
    else 40 + 20 * ToStore(k.app, stores) + ToRest(k.worker)
  }

  function Measure(c: Config, s: State): nat
    requires ValidConfig(c)
  {
    RANKS * Distance(s.d) + Rank(s.k, s.d.pending != [], Room(c, s.d), MaxWrite(c) > 0)
  }

  lemma AppRanksDownStopping(k: Control, more: bool, room: bool, stores: bool, left: bool, t: Control)
    requires ControlInv(k) && !t.active && AppControl(k, more, room, stores, left) == Some(t)
    ensures Rank(t, more, room, stores) < Rank(k, more, room, stores)
  {
  }

  lemma AppRanksDown(k: Control, more: bool, room: bool, stores: bool, left: bool, t: Control)
    requires ControlInv(k) && AppControl(k, more, room, stores, left) == Some(t)
    requires InFill(k.app) ==> more
    requires !stores ==> room
    requires k.app.FillStore? ==> !stores
    ensures Rank(t, more, room, stores) < Rank(k, more, room, stores)
  {
    if !t.active {
      AppRanksDownStopping(k, more, room, stores, left, t);
    } else {
      match k.app
      case FillTestSpace =>
      case FillSignal =>
      case FillNotify =>
      case _ =>
    }
  }

  lemma WorkerRanksDown(k: Control, more: bool, room: bool, stores: bool, whole: bool, t: Control)
    requires ControlInv(k) && WorkerControl(k, whole) == Some(t)
    requires InFill(k.app) ==> more
    requires !room ==> whole
    requires !k.worker.Take?
    ensures Rank(t, more, room, stores) < Rank(k, more, room, stores)
  {
  }

  /** A FIFO without room for the next piece holds a whole chunk for the worker. */
  lemma NoRoomMeansWholeChunk(c: Config, d: Data)
    requires ValidConfig(c) && !Room(c, d)
    ensures c.chunk < |d.fifo|
  {
    assert 2 * MaxWrite(c) <= c.bufferSize - c.chunk;
  }

  lemma AppStepDecreases(c: Config, s: State, t: State)
    requires ValidConfig(c) && Inv(c, s) && Next(c, s, AppStep) == Some(t)
    ensures Measure(c, t) < Measure(c, s)
  {
    var State(k, d) := s;
    if k.app.FillStore? && MaxWrite(c) > 0 {
      assert Distance(t.d) < Distance(d);
    } else if k.app.Flush? && d.fifo != [] {
      assert Distance(t.d) < Distance(d);
    } else {
      assert t.d.(totalWritten := 0) == d.(totalWritten := 0) by {
        if k.app.FillStore? {
          assert d.fifo + [] == d.fifo && d.accepted + [] == d.accepted;
        }
      }
      assert Distance(t.d) == Distance(d) && t.d.pending == d.pending && Room(c, t.d) == Room(c, d);
      AppRanksDown(k, d.pending != [], Room(c, d), MaxWrite(c) > 0, d.fifo != [], t.k);
    }
  }

  lemma WorkerStepDecreases(c: Config, s: State, t: State)
    requires ValidConfig(c) && Inv(c, s) && Next(c, s, WorkerStep) == Some(t)
    ensures Measure(c, t) < Measure(c, s)
  {
    var State(k, d) := s;
    if k.worker.Take? {
      assert Distance(t.d) < Distance(d);
    } else {
      assert Distance(t.d) == Distance(d) && t.d.pending == d.pending && Room(c, t.d) == Room(c, d);
      if !Room(c, d) {
        NoRoomMeansWholeChunk(c, d);
      }
      WorkerRanksDown(k, d.pending != [], Room(c, d), MaxWrite(c) > 0, c.chunk <= |d.fifo|, t.k);
    }
  }

  /** Every internal step, whichever thread, socket or server takes it, decreases the measure. */
  lemma InternalStepDecreases(c: Config, s: State, l: Label, t: State)
    requires ValidConfig(c) && Inv(c, s) && IsInternal(l) && Next(c, s, l) == Some(t)
    ensures Measure(c, t) < Measure(c, s)
  {
    if l.AppStep? {
      AppStepDecreases(c, s, t);
    } else if l.WorkerStep? {
      WorkerStepDecreases(c, s, t);
    } else {
      assert Distance(t.d) < Distance(s.d);
    }
  }

  lemma SpuriousStepCost(c: Config, s: State, l: Label, t: State)
    requires ValidConfig(c) && IsSpurious(l) && Next(c, s, l) == Some(t)
    ensures Measure(c, t) < Measure(c, s) + RANKS
  {
  }

  function SpuriousCount(ls: seq<Label>): nat {
    if ls == [] then 0 else (if IsSpurious(ls[0]) then 1 else 0) + SpuriousCount(ls[1..])
  }

  /** No calls by the application: only what the system does by itself, plus spurious wake-ups. */
  predicate NoCalls(ls: seq<Label>) {
    forall i :: 0 <= i < |ls| ==> !IsCall(ls[i])
  }

  /**
   Whatever the scheduler, the network and the server do, the work left bounds the number of steps:
   with w spurious wake-ups a run takes at most Measure + 401 * w steps, then nothing can move.
   */
  lemma {:induction false} RunIsBounded(c: Config, s: State, ls: seq<Label>, t: State)
    requires ValidConfig(c) && Inv(c, s) && NoCalls(ls) && Run(c, s, ls) == Some(t)
    ensures |ls| + Measure(c, t) <= Measure(c, s) + (RANKS + 1) * SpuriousCount(ls)
    decreases |ls|
  {
    if ls != [] {
      var u := Next(c, s, ls[0]).value;
      StepPreservesInv(c, s, ls[0], u);
      if IsSpurious(ls[0]) {
        SpuriousStepCost(c, s, ls[0], u);
      } else {
        InternalStepDecreases(c, s, ls[0], u);
      }
      RunIsBounded(c, u, ls[1..], t);
    }
  }

  // ----- what is left when nothing can move -----

  /** The application is outside the library or finished, the worker is parked, the wire is empty. */
  predicate AtRest(s: State) {
    && (s.k.app.Idle? || s.k.app.ExecDone? || s.k.app.Stopped?)
    && s.k.worker == (if s.k.app.Idle? then Asleep else Exited)
    && s.d.net == [] && !s.d.playing
  }

  /** Some internal step that is enabled unless the state is at rest. */
  function Mover(s: State): Label {
    if s.d.playing then Play(1)
    else if s.d.net != [] then Receive(1)
    else if s.k.worker.Send? then WorkerSend(1)
    else if s.k.app.FlushSend? then FlushPiece(1)
    else if s.k.worker.Asleep? || s.k.worker.Exited? || (s.k.condMutex.HeldByApp? && !WorkerHolds(s.k.worker))
    then AppStep
    else WorkerStep
  }

  lemma MoverEnabled(c: Config, s: State)
    requires ValidConfig(c) && Inv(c, s) && !AtRest(s)
    ensures IsInternal(Mover(s)) && Next(c, s, Mover(s)).Some?
  {
  }

  /** Deadlock freedom: a reachable state in which nothing can move is at rest, and conversely. */
  lemma QuiescentIffAtRest(c: Config, s: State)
    requires ValidConfig(c) && Reachable(c, s)
    ensures Quiescent(c, s) <==> AtRest(s)
  {
    ReachableInv(c, s);
    if !AtRest(s) {
      MoverEnabled(c, s);
    }
  }

  /** In particular the two threads are never both asleep on the condition variable. */
  lemma NeverBothAsleep(c: Config, s: State)
    requires ValidConfig(c) && Reachable(c, s)
    ensures !(s.k.app.FillAsleep? && s.k.worker.Asleep?)
  {
    ReachableInv(c, s);
  }
}
