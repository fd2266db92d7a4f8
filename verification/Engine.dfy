/**
 The client streaming engine and the server that drains it, as a transition system.

 One application thread runs rsd_write, rsd_exec or rsd_stop; the worker runs rsnd_thread; the data
 socket is a bounded byte queue that takes and gives arbitrary non-empty pieces; the server alternates
 between receive_data and backend->write. A program counter names the next statement of each thread.
 A critical section of thread.mutex is one step; cond_mutex is a real lock, because the condition
 variable is waited on with it; pthread_cond_signal wakes a sleeper if there is one and is lost if
 there is none. The FIFO is the queue that Fifo.RingBuffer implements.
 */
module Engine {
  import opened Bytes

  datatype Config = Config(
    chunk: nat,         // backend_info.chunk_size, clamped
    bufferSize: nat,    // capacity of the FIFO, clamped
    serverChunk: nat,   // what the server receives before it writes to its backend
    netCapacity: nat,
    header: seq<Byte>)  // the WAV header, already on the socket when the worker starts

  const MAX_CHUNK_SIZE := 1024
  const MAX_PACKET_SIZE := 1024

  predicate ValidConfig(c: Config) {
    && 1 <= c.chunk <= MAX_CHUNK_SIZE
    && 2 * c.chunk <= c.bufferSize
    && 1 <= c.serverChunk
    && 1 <= c.netCapacity
  }

  /** rsnd_get_backend_info: what the client makes of the server's chunk size and its own buffer size. */
  function ClampChunk(chunk: nat): nat {
    if chunk > MAX_CHUNK_SIZE || chunk <= 0 then MAX_CHUNK_SIZE else chunk
  }

  function ClampBuffer(bufferSize: nat, chunk: nat): nat {
    if bufferSize <= 0 || bufferSize < chunk * 2 then chunk * 32 else bufferSize
  }

  /** The largest piece rsd_write hands to rsnd_fill_buffer. */
  function MaxWrite(c: Config): nat
    requires ValidConfig(c)
  {
    (c.bufferSize - c.chunk) / 2
  }

  datatype Lock = Free | HeldByApp | HeldByWorker

  /** What rsnd_stop_thread was called for. */
  datatype Goal = Exec | Stop

  datatype AppPc =
    | Idle            // outside the library
    | WriteLoop       // rsd_write: more left?
    | FillTestActive  // rsnd_fill_buffer: thread_active?
    | FillTestSpace   // enough room in the FIFO?
    | FillLock        // about to take cond_mutex
    | FillSignal
    | FillWait        // about to release cond_mutex and sleep
    | FillAsleep
    | FillReacquire   // woken, waiting for cond_mutex
    | FillUnlock
    | FillStore       // rsnd_fifo_write
    | FillNotify      // signal after the store
    | StopTest        // rsnd_stop_thread: thread_active?
    | StopLock
    | StopClear       // thread_active = 0
    | StopSignal
    | StopUnlock
    | StopJoin
    | Flush           // rsd_exec: take what is left in the FIFO
    | FlushSend
    | ExecDone
    | Stopped         // after rsnd_reset

  datatype WorkerPc =
    | TestCancel      // first _TEST_CANCEL
    | TestAvail       // a whole chunk in the FIFO?
    | TestCancelAgain // second _TEST_CANCEL
    | Take            // rsnd_fifo_read
    | Send            // rsnd_send_chunk
    | Count           // total_written += rc
    | Notify          // signal: the FIFO has shrunk
    | TestActive      // out of the inner loop: still active?
    | LockCond
    | SignalCond
    | Retest          // thread_active again, now under cond_mutex
    | WaitCond
    | Asleep
    | Reacquire
    | UnlockCond
    | SignalExit
    | Exited

  /** Where the two threads stand, and the synchronisation they share. */
  datatype Control = Control(
    app: AppPc,
    worker: WorkerPc,
    goal: Goal,
    active: bool,               // thread_active
    condMutex: Lock)            // who holds cond_mutex

  /** The bytes, in the order they travel, and the counters. */
  datatype Data = Data(
    pending: seq<Byte>,   // rest of rsd_write's argument
    fifo: seq<Byte>,
    unsent: seq<Byte>,    // rest of the worker's chunk
    flush: seq<Byte>,     // rest of rsd_exec's final buffer
    net: seq<Byte>,       // on the wire, header excluded
    srv: seq<Byte>,       // received, not yet played
    playing: bool,        // server is in its backend->write loop
    played: seq<Byte>,
    totalWritten: nat,
    accepted: seq<Byte>,  // history: all bytes rsd_write has stored
    carried: seq<Byte>)   // history: all bytes the data socket has taken

  datatype State = State(k: Control, d: Data)

  function Init(c: Config): State {
    State(Control(Idle, TestCancel, Stop, true, Free), Data([], [], [], [], [], [], false, [], 0, [], c.header))
  }

  datatype Label =
    | CallWrite(data: seq<Byte>) | CallExec | CallStop
    | AppStep | WorkerStep
    | WorkerSend(n: nat) | FlushPiece(n: nat)
    | Receive(n: nat) | Play(n: nat)
    | SpuriousApp | SpuriousWorker

  predicate IsCall(l: Label) { l.CallWrite? || l.CallExec? || l.CallStop? }

  predicate IsSpurious(l: Label) { l.SpuriousApp? || l.SpuriousWorker? }

  predicate IsInternal(l: Label) { !IsCall(l) && !IsSpurious(l) }

  /** The size of the piece rsd_write stores next. */
  function Piece(c: Config, d: Data): nat
    requires ValidConfig(c)
  {
    if |d.pending| > MaxWrite(c) then MaxWrite(c) else |d.pending|
  }

  predicate Room(c: Config, d: Data)
    requires ValidConfig(c)
  {
    |d.fifo| + Piece(c, d) <= c.bufferSize
  }

  /** pthread_cond_signal by the application, and by the worker. */
  function WakeWorker(k: Control): Control {
    if k.worker.Asleep? then k.(worker := Reacquire) else k
  }

  function WakeApp(k: Control): Control {
    if k.app.FillAsleep? then k.(app := FillReacquire) else k
  }

  function AfterJoin(k: Control): Control {
    k.(app := if k.goal.Exec? then Flush else Stopped)
  }

  /**
   One statement of the application thread. `more`: rsd_write has bytes left; `room`: its next piece
   fits; `stores`: pieces are not empty; `left`: the FIFO is not empty.
   */
  function AppControl(k: Control, more: bool, room: bool, stores: bool, left: bool): Option<Control> {
    match k.app
    case WriteLoop => Some(k.(app := if more then FillTestActive else Idle))
    case FillTestActive =>
      Some(if k.active then k.(app := FillTestSpace) else k.(app := StopTest, goal := Stop))
    case FillTestSpace => Some(k.(app := if room then FillStore else FillLock))
    case FillLock => if k.condMutex.Free? then Some(k.(app := FillSignal, condMutex := HeldByApp)) else None
    case FillSignal => Some(WakeWorker(k).(app := FillWait))
    case FillWait => Some(k.(app := FillAsleep, condMutex := Free))
    case FillReacquire => if k.condMutex.Free? then Some(k.(app := FillUnlock, condMutex := HeldByApp)) else None
    case FillUnlock => Some(k.(app := FillTestActive, condMutex := Free))
    case FillStore => Some(k.(app := FillNotify))
    case FillNotify =>
      Some(if stores then WakeWorker(k).(app := WriteLoop) else WakeWorker(k).(app := StopTest, goal := Stop))
    case StopTest => Some(if k.active then k.(app := StopLock) else AfterJoin(k))
    case StopLock => if k.condMutex.Free? then Some(k.(app := StopClear, condMutex := HeldByApp)) else None
    case StopClear => Some(k.(app := StopSignal, active := false))
    case StopSignal => Some(WakeWorker(k).(app := StopUnlock))
    case StopUnlock => Some(k.(app := StopJoin, condMutex := Free))
    case StopJoin => if k.worker.Exited? then Some(AfterJoin(k)) else None
    case Flush => Some(k.(app := if left then FlushSend else ExecDone))
    case _ => None
  }

  /** What the same statement does to the data. */
  function AppData(c: Config, k: Control, d: Data): Data
    requires ValidConfig(c)
  {
    match k.app
    case FillStore =>
      var p := Piece(c, d);
      d.(fifo := d.fifo + d.pending[..p], pending := d.pending[p..], accepted := d.accepted + d.pending[..p])
    case Flush => d.(flush := d.fifo, fifo := [])
    case StopTest => if !k.active && k.goal.Stop? then d.(totalWritten := 0) else d
    case StopJoin => if k.goal.Stop? then d.(totalWritten := 0) else d
    case _ => d
  }

  /** One statement of the worker. `whole`: the FIFO holds at least a chunk. */
  function WorkerControl(k: Control, whole: bool): Option<Control> {
    match k.worker
    case TestCancel => Some(k.(worker := if k.active then TestAvail else TestActive))
    case TestAvail => Some(k.(worker := if !whole || !k.active then TestActive else TestCancelAgain))
    case TestCancelAgain => Some(k.(worker := if k.active then Take else TestActive))
    case Take => if whole then Some(k.(worker := Send)) else None
    case Count => Some(k.(worker := Notify))
    case Notify => Some(WakeApp(k).(worker := TestCancel))
    case TestActive => Some(k.(worker := if k.active then LockCond else SignalExit))
    case LockCond => if k.condMutex.Free? then Some(k.(worker := SignalCond, condMutex := HeldByWorker)) else None
    case SignalCond => Some(WakeApp(k).(worker := Retest))
    case Retest => Some(k.(worker := if k.active then WaitCond else UnlockCond))
    case WaitCond => Some(k.(worker := Asleep, condMutex := Free))
    case Reacquire => if k.condMutex.Free? then Some(k.(worker := UnlockCond, condMutex := HeldByWorker)) else None
    case UnlockCond => Some(k.(worker := TestCancel, condMutex := Free))
    case SignalExit => Some(WakeApp(k).(worker := Exited))
    case _ => None
  }

  function WorkerData(c: Config, k: Control, d: Data): Data {
    match k.worker
    case Take => if c.chunk <= |d.fifo| then d.(unsent := d.fifo[..c.chunk], fifo := d.fifo[c.chunk..]) else d
    case Count => d.(totalWritten := d.totalWritten + c.chunk)
    case _ => d
  }

  /** send() takes `n` of the bytes offered: at most a packet and at most what the network holds. */
  predicate CanSend(c: Config, d: Data, offered: seq<Byte>, n: nat) {
    1 <= n <= |offered| && n <= MAX_PACKET_SIZE && |d.net| + n <= c.netCapacity
  }

  function Carry(d: Data, piece: seq<Byte>): Data {
    d.(net := d.net + piece, carried := d.carried + piece)
  }

  function Called(k: Control, l: Label): Control {
    if l.CallWrite? then k.(app := WriteLoop) else k.(app := StopTest, goal := if l.CallExec? then Exec else Stop)
  }

  function Next(c: Config, s: State, l: Label): Option<State>
    requires ValidConfig(c)
  {
    var State(k, d) := s;
    match l
    case CallWrite(data) => if k.app.Idle? then Some(State(Called(k, l), d.(pending := data))) else None
    case CallExec => if k.app.Idle? then Some(State(Called(k, l), d)) else None
    case CallStop => if k.app.Idle? then Some(State(Called(k, l), d)) else None
    case AppStep =>
      (match AppControl(k, d.pending != [], Room(c, d), MaxWrite(c) > 0, d.fifo != [])
       case None => None
       case Some(k') => Some(State(k', AppData(c, k, d))))
    case WorkerStep =>
      (match WorkerControl(k, c.chunk <= |d.fifo|)
       case None => None
       case Some(k') => Some(State(k', WorkerData(c, k, d))))
    case WorkerSend(n) =>
      if k.worker.Send? && CanSend(c, d, d.unsent, n) then
        Some(State(k.(worker := if n == |d.unsent| then Count else Send),
                   Carry(d, d.unsent[..n]).(unsent := d.unsent[n..])))
      else None
    case FlushPiece(n) =>
      if k.app.FlushSend? && CanSend(c, d, d.flush, n) then
        Some(State(k.(app := if n == |d.flush| then ExecDone else FlushSend),
                   Carry(d, d.flush[..n]).(flush := d.flush[n..])))
      else None
    case Receive(n) =>
      if !d.playing && 1 <= n <= |d.net| && n <= MAX_PACKET_SIZE && |d.srv| + n <= c.serverChunk then
        Some(State(k, d.(net := d.net[n..], srv := d.srv + d.net[..n], playing := |d.srv| + n == c.serverChunk)))
      else None
    case Play(n) =>
      if d.playing && 1 <= n <= |d.srv| then
        Some(State(k, d.(srv := d.srv[n..], played := d.played + d.srv[..n], playing := n < |d.srv|)))
      else None
    case SpuriousApp => if k.app.FillAsleep? then Some(State(WakeApp(k), d)) else None
    case SpuriousWorker => if k.worker.Asleep? then Some(State(WakeWorker(k), d)) else None
  }

  function Run(c: Config, s: State, ls: seq<Label>): Option<State>
    requires ValidConfig(c)
    decreases |ls|
  {
    if ls == [] then Some(s)
    else
      match Next(c, s, ls[0])
      case None => None
      case Some(t) => Run(c, t, ls[1..])
  }

  ghost predicate Reachable(c: Config, s: State)
    requires ValidConfig(c)
  {
    exists ls :: Run(c, Init(c), ls) == Some(s)
  }

  /** No thread, socket or server can move by itself: only a new call or a spurious wake-up remains. */
  ghost predicate Quiescent(c: Config, s: State)
    requires ValidConfig(c)
  {
    forall l :: IsInternal(l) ==> Next(c, s, l) == None
  }
}
