// The recorder as a step system.  Three threads share the object: the RPC thread runs
// Start and Stop, the recorder thread runs Record, and in continuous mode a buffer
// thread runs processBuffer.  A step is one shared access of one thread; every read or
// write of m_stop, m_stop_time, m_input_buf and every lock operation is a step of its
// own, so all interleavings of those accesses are runs of this system.
module RecorderProtocol {
  import opened InputEvents
  import DeviceMask

  const FILE_MAX_LINES: nat := 500000

  /** The device mask has 64 bits. */
  type DeviceList = ds: seq<Device> | |ds| <= 64

  /** m_recording_length: seconds to milliseconds in 32 bits. */
  function StoredLength(length: uint32): uint32 { length * 1000 % 0x1_0000_0000 }

  /** length is m_recording_length, the stored number of milliseconds. */
  datatype Config = Config(available: seq<Device>, length: uint32, continuous: bool)

  datatype ThreadId = RpcThread | RecThread | BufThread
  datatype Lock = Free | HeldBy(owner: ThreadId)

  /** Program points of the RPC thread. */
  datatype RpcPc =
    | Idle
    | StartWant          // isActive: about to lock stop_mtx
    | StartHeld          // stop_mtx held, m_stop about to be read
    | StartSpawn         // m_stop was true: about to assign m_recorder_thread
    | StopWant           // about to lock stop_mtx
    | StopStore          // held, about to set m_stop
    | StopStamp          // held, about to set m_stop_time and unlock
    | StopNotify
    | StopJoin
    | Terminated         // a running thread was assigned over: std::terminate

  /** Program points of Record. */
  datatype RecPc =
    | NoRecord
    | ActivateWant
    | ActivateStore      // stop_mtx held, about to clear m_stop
    | ActivateStamp      // held, about to set m_start_time and unlock
    | SpawnBuffer
    | Setup
    | LoopTop            // is_done: about to read m_stop
    | TimedRead          // is_done, fixed length: about to read the clock
    | TimedWant(t: int)
    | TimedHeld(t: int)
    | Select
    | Round(i: nat)      // for-loop over devices_to_record
    | EscWant(i: nat)
    | EscStore(i: nat)
    | EscStamp(i: nat)
    | PushWant(i: nat, r: InputRecord)
    | PushHeld(i: nat, r: InputRecord)
    | JoinBuffer
    | RecFinished

  /** Program points of processBuffer. */
  datatype BufPc =
    | NoBuffer
    | BufLoopTop         // is_done: about to read m_stop
    | WaitWant
    | WaitHeld           // stop_mtx held, predicate about to be tested
    | Waiting            // blocked in wait_for, stop_mtx released
    | TimeoutWant        // one second is over, about to lock again
    | TimeoutHeld
    | TrimClock          // about to read the clock
    | TrimWant(cutoff: int)
    | TrimHeld(cutoff: int)
    | ReadStopTime
    | FinalWant(stopRead: int)
    | FinalHeld(stopRead: int)
    | DumpHeld(stopRead: int)
    | BufFinished

  /** One completed trim loop: its cutoff, whether the line cap applied, how many records
      had been pushed in all when it ran, and the instant its window ends. */
  datatype Pass = Pass(cutoff: int, capped: bool, len: nat, at: int)

  /** One file written by processBuffer: first and end are the numbers of records popped
      and pushed so far, passes the number of trim passes, base the records pushed before
      this session, and session its number. */
  datatype Dump = Dump(first: nat, end: nat, body: seq<InputRecord>, header: int,
                       stopRead: int, stopReadAgain: int, startTime: int,
                       base: nat, session: nat, passes: nat)

  datatype State = State(
    cfg: Config,
    clock: int,
    rpc: RpcPc, rec: RecPc, buf: BufPc,
    joinable: bool,                       // m_recorder_thread.joinable()
    stopMtx: Lock, bufMtx: Lock,
    stop: bool, stopTime: int, startTime: int,
    mem: Memory,
    log: Log)

  datatype Memory = Memory(
    mask: DeviceMask.uint64,
    devs: seq<Device>,                    // devices_to_record
    inputBuf: seq<InputRecord>,
    file: seq<InputRecord>)               // lines of the current fixed-length file

  /** What the program does not keep: everything ever pushed, how much of it was popped,
      every trim pass, every dump, where the current round and session began, the mask this
      session decoded, the clock as last read for a periodic pass, and how much had been
      read from the devices when m_stop_time was last written. */
  datatype Log = Log(
    hist: seq<InputRecord>,
    evicted: nat,
    passes: seq<Pass>,
    dumps: seq<Dump>,
    roundStart: nat,
    base: nat,
    sessions: nat,
    inForce: DeviceMask.uint64,
    trimAt: int,
    stamped: nat)

  /** What select and read return, the event read being given as transformed, and the
      keysym the keyboard layout gives. */
  datatype RecIo = Quiet | SelectFailed | Ready | Input(ev: Event, keysym: uint32)

  datatype Label =
    | Tick(now: int)                      // the clock moves on
    | CallStart | CallStop                // an RPC arrives
    | SetMask(mask: DeviceMask.uint64)    // setDevicesToRecord
    | RpcStep
    | RecStep(io: RecIo)
    | BufStep(timeout: bool)

  predicate ValidConfig(cfg: Config) {
    |cfg.available| <= 64
  }

  /** The object after construction, at time now. */
  function Init(cfg: Config, now: nat): State {
    State(cfg, now, Idle, NoRecord, NoBuffer, false, Free, Free, true, 0, 0,
          Memory(DeviceMask.ALL_DEVICES, [], [], []), Log([], 0, [], [], 0, 0, 0, DeviceMask.ALL_DEVICES, 0, 0))
  }

  /** The record about to be pushed, if any. */
  function Pending(r: RecPc): seq<InputRecord> {
    if r.PushWant? || r.PushHeld? then [r.r] else []
  }

  /** Everything read from the devices in continuous mode, pushed or about to be. */
  function Seen(s: State): seq<InputRecord> {
    s.log.hist + Pending(s.rec)
  }

  // ---- RPC thread ----

  predicate RpcEnabled(s: State) {
    match s.rpc
    case Idle => false
    case StartWant => s.stopMtx.Free?
    case StopWant => s.stopMtx.Free?
    case StopJoin => s.joinable ==> s.rec.RecFinished?
    case Terminated => false
    case _ => true
  }

  /** notify_all: a waiting buffer thread goes on to re-lock and test its predicate. */
  function Notified(b: BufPc): BufPc {
    if b.Waiting? then WaitWant else b
  }

  function RpcNext(s: State): State
    requires RpcEnabled(s)
  {
    match s.rpc
    case StartWant => s.(stopMtx := HeldBy(RpcThread), rpc := StartHeld)
    case StartHeld => s.(stopMtx := Free, rpc := if s.stop then StartSpawn else Idle)
    case StartSpawn =>
      if s.joinable then s.(rpc := Terminated)
      else s.(joinable := true, rec := ActivateWant, rpc := Idle)
    case StopWant => s.(stopMtx := HeldBy(RpcThread), rpc := StopStore)
    case StopStore => s.(stop := true, rpc := StopStamp)
    case StopStamp =>
      s.(stopTime := s.clock, stopMtx := Free, rpc := StopNotify, log := s.log.(stamped := |Seen(s)|))
    case StopNotify => s.(buf := Notified(s.buf), rpc := StopJoin)
    case StopJoin =>
      // join on an empty slot throws; otherwise it empties the slot
      if s.joinable then s.(joinable := false, rec := NoRecord, rpc := Idle)
      else s.(rpc := Idle)
  }

  // ---- Recorder thread ----

  predicate RecEnabled(s: State, io: RecIo) {
    match s.rec
    case NoRecord => false
    case ActivateWant => s.stopMtx.Free? && io.Quiet?
    case TimedWant(_) => s.stopMtx.Free? && io.Quiet?
    case Select => !io.Input?
    case Round(i) => io.Quiet? || (io.Input? && i < |s.mem.devs|)
    case EscWant(_) => s.stopMtx.Free? && io.Quiet?
    case PushWant(_, _) => s.bufMtx.Free? && io.Quiet?
    case JoinBuffer => s.buf.BufFinished? && io.Quiet?
    case RecFinished => false
    case _ => io.Quiet?
  }

  /** Where the select loop leads when it ends. */
  function LoopExit(s: State): RecPc {
    if s.cfg.continuous then JoinBuffer else RecFinished
  }

  function RecNext(s: State, io: RecIo): State
    requires ValidConfig(s.cfg) && RecEnabled(s, io)
  {
    match s.rec
    case ActivateWant => s.(stopMtx := HeldBy(RecThread), rec := ActivateStore)
    case ActivateStore => s.(stop := false, rec := ActivateStamp)
    case ActivateStamp =>
      s.(startTime := s.clock, stopMtx := Free, rec := SpawnBuffer,
         log := s.log.(base := |s.log.hist|, sessions := s.log.sessions + 1))
    case SpawnBuffer =>
      s.(buf := if s.cfg.continuous then BufLoopTop else s.buf, rec := Setup)
    case Setup =>
      s.(mem := s.mem.(devs := DeviceMask.Selected(s.cfg.available, s.mem.mask, |s.cfg.available|),
                       file := if s.cfg.continuous then s.mem.file else []),
         log := s.log.(roundStart := 0, inForce := s.mem.mask), rec := LoopTop)
    case LoopTop =>
      s.(rec := if s.stop then LoopExit(s) else if s.cfg.continuous then Select else TimedRead)
    case TimedRead => s.(rec := TimedWant(s.clock))
    case TimedWant(t) => s.(stopMtx := HeldBy(RecThread), rec := TimedHeld(t))
    case TimedHeld(t) =>
      if t - s.startTime >= s.cfg.length then
        s.(stop := true, buf := Notified(s.buf), stopMtx := Free, rec := LoopExit(s))
      else
        s.(stopMtx := Free, rec := Select)
    case Select =>
      if io.Quiet? then s.(rec := LoopTop)
      else if io.SelectFailed? then s.(rec := LoopExit(s))
      else s.(rec := Round(0), log := s.log.(roundStart := |s.mem.file|))
    case Round(i) =>
      if i >= |s.mem.devs| then s.(rec := LoopTop)
      else if io.Quiet? then s.(rec := Round(i + 1))
      else if IsEscape(io.ev) then s.(rec := EscWant(i))
      else
        var r := MakeRecord(s.clock, s.mem.devs[i], io.ev, io.keysym);
        if s.cfg.continuous then s.(rec := PushWant(i, r))
        else s.(mem := s.mem.(file := s.mem.file + [r]), rec := Round(i + 1))
    case EscWant(i) => s.(stopMtx := HeldBy(RecThread), rec := EscStore(i))
    case EscStore(i) => s.(stop := true, rec := EscStamp(i))
    case EscStamp(i) =>
      s.(stopTime := s.clock, stopMtx := Free, rec := Round(i + 1), log := s.log.(stamped := |Seen(s)|))
    case PushWant(i, r) => s.(bufMtx := HeldBy(RecThread), rec := PushHeld(i, r))
    case PushHeld(i, r) =>
      s.(mem := s.mem.(inputBuf := s.mem.inputBuf + [r]), log := s.log.(hist := s.log.hist + [r]),
         bufMtx := Free, rec := Round(i + 1))
    case JoinBuffer => s.(buf := NoBuffer, rec := RecFinished)
  }

  // ---- Buffer thread ----

  predicate BufEnabled(s: State, timeout: bool) {
    match s.buf
    case NoBuffer => false
    case WaitWant => s.stopMtx.Free? && !timeout
    case Waiting => true
    case TimeoutWant => s.stopMtx.Free? && !timeout
    case TrimWant(_) => s.bufMtx.Free? && !timeout
    case FinalWant(_) => s.bufMtx.Free? && !timeout
    case BufFinished => false
    case _ => !timeout
  }

  /** Loop conditions of the two trim loops. */
  predicate PeriodicPops(b: seq<InputRecord>, cutoff: int) {
    |b| > 0 && (b[0].tsAbs < cutoff || |b| > FILE_MAX_LINES)
  }

  predicate FinalPops(b: seq<InputRecord>, cutoff: int) {
    |b| > 0 && b[0].tsAbs < cutoff
  }

  /** The instant written in the second line of a dump. */
  function Header(stopRead: int, stopReadAgain: int, startTime: int, length: int): int {
    if stopReadAgain - startTime >= length then stopRead - length else startTime
  }

  function BufNext(s: State, timeout: bool): State
    requires BufEnabled(s, timeout)
  {
    match s.buf
    case BufLoopTop => s.(buf := if s.stop then ReadStopTime else WaitWant)
    case WaitWant => s.(stopMtx := HeldBy(BufThread), buf := WaitHeld)
    case WaitHeld => s.(stopMtx := Free, buf := if s.stop then TrimClock else Waiting)
    case Waiting => s.(buf := if timeout then TimeoutWant else WaitWant)
    case TimeoutWant => s.(stopMtx := HeldBy(BufThread), buf := TimeoutHeld)
    case TimeoutHeld => s.(stopMtx := Free, buf := TrimClock)
    case TrimClock => s.(buf := TrimWant(s.clock - s.cfg.length), log := s.log.(trimAt := s.clock))
    case TrimWant(c) => s.(bufMtx := HeldBy(BufThread), buf := TrimHeld(c))
    case TrimHeld(c) =>
      if PeriodicPops(s.mem.inputBuf, c) then
        s.(mem := s.mem.(inputBuf := s.mem.inputBuf[1..]),
           log := s.log.(evicted := s.log.evicted + 1))
      else
        s.(log := s.log.(passes := s.log.passes + [Pass(c, true, |s.log.hist|, s.log.trimAt)]),
           bufMtx := Free, buf := BufLoopTop)
    case ReadStopTime => s.(buf := FinalWant(s.stopTime))
    case FinalWant(t) => s.(bufMtx := HeldBy(BufThread), buf := FinalHeld(t))
    case FinalHeld(t) =>
      if FinalPops(s.mem.inputBuf, t - s.cfg.length) then
        s.(mem := s.mem.(inputBuf := s.mem.inputBuf[1..]),
           log := s.log.(evicted := s.log.evicted + 1))
      else
        s.(log := s.log.(passes := s.log.passes + [Pass(t - s.cfg.length, false, |s.log.hist|, t)]),
           buf := DumpHeld(t))
    case DumpHeld(t) =>
      var d := Dump(s.log.evicted, |s.log.hist|, s.mem.inputBuf,
                    Header(t, s.stopTime, s.startTime, s.cfg.length),
                    t, s.stopTime, s.startTime, s.log.base, s.log.sessions, |s.log.passes|);
      s.(log := s.log.(dumps := s.log.dumps + [d]), bufMtx := Free, buf := BufFinished)
  }

  // ---- Runs ----

  predicate Enabled(s: State, l: Label) {
    && !s.rpc.Terminated?
    && match l
       case Tick(now) => s.clock <= now
       case CallStart => s.rpc.Idle?
       case CallStop => s.rpc.Idle?
       case SetMask(_) => s.rpc.Idle?
       case RpcStep => RpcEnabled(s)
       case RecStep(io) => RecEnabled(s, io)
       case BufStep(timeout) => BufEnabled(s, timeout)
  }

  function Next(s: State, l: Label): State
    requires ValidConfig(s.cfg) && Enabled(s, l)
  {
    match l
    case Tick(now) => s.(clock := now)
    case CallStart => s.(rpc := StartWant)
    case CallStop => s.(rpc := StopWant)
    case SetMask(m) => s.(mem := s.mem.(mask := m))
    case RpcStep => RpcNext(s)
    case RecStep(io) => RecNext(s, io)
    case BufStep(timeout) => BufNext(s, timeout)
  }

  lemma ConfigIsFixed(s: State, l: Label)
    requires ValidConfig(s.cfg) && Enabled(s, l)
    ensures Next(s, l).cfg == s.cfg
  {
  }

  /** ls can be taken one after the other from s. */
  ghost predicate Legal(s: State, ls: seq<Label>)
    requires ValidConfig(s.cfg)
    decreases |ls|
  {
    ls != [] ==>
      && Enabled(s, ls[0])
      && (ConfigIsFixed(s, ls[0]); Legal(Next(s, ls[0]), ls[1..]))
  }

  /** The state after the run ls. */
  ghost function After(s: State, ls: seq<Label>): State
    requires ValidConfig(s.cfg) && Legal(s, ls)
    decreases |ls|
  {
    if ls == [] then s
    else
      ConfigIsFixed(s, ls[0]);
      After(Next(s, ls[0]), ls[1..])
  }

  /** s is reached from construction by some run. */
  ghost predicate Reachable(s: State) {
    exists cfg, now: nat, ls ::
      ValidConfig(cfg) && Legal(Init(cfg, now), ls) && After(Init(cfg, now), ls) == s
  }
}
