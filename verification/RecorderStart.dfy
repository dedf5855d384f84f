// What Start does to a recorder that is already there, and when it ends the process.
module RecorderStart {
  import opened InputEvents
  import opened RecorderProtocol
  import opened RecorderSafety
  import opened RecorderTheorems
  import opened RecorderProgress
  import DeviceMask

  // ---- Start ----

  /** Start ends the process exactly when it finds the flag set and the slot occupied. */
  lemma StartTerminatesIff(s: State)
    requires Inv(s) && s.rpc.StartHeld?
    ensures RpcNext(s).rpc.StartSpawn? || RpcNext(s).rpc.Idle?
    ensures (RpcNext(s).rpc.StartSpawn? && RpcNext(RpcNext(s)).rpc.Terminated?) <==> (s.stop && s.joinable)
  {
  }

  /** A second Start before the thread has activated does that. */
  lemma SecondStartCanTerminate(s: State) returns (ls: seq<Label>)
    requires Inv(s) && s.rpc.Idle? && !s.joinable && s.stop
    ensures Legal(s, ls) && After(s, ls).rpc.Terminated?
  {
    var t;
    ls, t := StartedRun(s);
    ls, t := Extend(s, ls, t, CallStart);
    ls, t := Extend(s, ls, t, RpcStep);
    ls, t := Extend(s, ls, t, RpcStep);
    ls, t := Extend(s, ls, t, RpcStep);
  }

  /** Every Start of the run is called with an empty slot. */
  ghost predicate StartsOnEmptySlot(s: State, ls: seq<Label>)
    requires ValidConfig(s.cfg) && Legal(s, ls)
    decreases |ls|
  {
    ls != [] ==>
      && (ls[0].CallStart? ==> !s.joinable)
      && (ConfigIsFixed(s, ls[0]); StartsOnEmptySlot(Next(s, ls[0]), ls[1..]))
  }

  predicate StartIsSafe(s: State) {
    !s.rpc.Terminated? && (s.rpc.StartWant? || s.rpc.StartHeld? || s.rpc.StartSpawn? ==> !s.joinable)
  }

  lemma SafeStartStep(s: State, l: Label)
    requires ThreadInv(s) && StartIsSafe(s) && Enabled(s, l) && (l.CallStart? ==> !s.joinable)
    ensures StartIsSafe(Next(s, l))
  {
    match l
    case RpcStep =>
    case RecStep(io) =>
    case BufStep(timeout) =>
    case _ =>
  }

  /** Runs that start the recorder only when its slot is empty never terminate the process. */
  lemma {:induction false} EmptySlotStartsAreSafe(s: State, ls: seq<Label>)
    requires Inv(s) && StartIsSafe(s) && Legal(s, ls) && StartsOnEmptySlot(s, ls)
    ensures !After(s, ls).rpc.Terminated?
    decreases |ls|
  {
    if ls == [] {
    } else {
      StepHolds(s, ls[0]);
      SafeStartStep(s, ls[0]);
      EmptySlotStartsAreSafe(Next(s, ls[0]), ls[1..]);
    }
  }

  // ---- Start over whole runs ----

  /** The step in which a Start finds the flag set and the slot occupied. */
  predicate ReadsStopped(s: State, l: Label) {
    l.RpcStep? && s.rpc.StartHeld? && s.stop && s.joinable
  }

  /** Some Start of the run does that. */
  ghost predicate SomeStartReadsStopped(s: State, ls: seq<Label>)
    requires ValidConfig(s.cfg) && Legal(s, ls)
    decreases |ls|
  {
    ls != [] &&
      (|| ReadsStopped(s, ls[0])
       || (ConfigIsFixed(s, ls[0]); SomeStartReadsStopped(Next(s, ls[0]), ls[1..])))
  }

  /** The process has ended, or the RPC thread is about to assign over a running thread. */
  predicate Doomed(s: State) {
    s.rpc.Terminated? || (s.rpc.StartSpawn? && s.joinable)
  }

  lemma DoomedStep(s: State, l: Label)
    requires ThreadInv(s) && Enabled(s, l)
    ensures Doomed(Next(s, l)) <==> Doomed(s) || ReadsStopped(s, l)
  {
    match l
    case RpcStep =>
    case RecStep(io) =>
    case BufStep(timeout) =>
    case _ =>
  }

  /** Exactly the runs in which some Start reads a set flag with the slot occupied end the
      process, as soon as the RPC thread makes its next step. */
  lemma {:induction false} RunEndsProcessIff(s: State, ls: seq<Label>)
    requires Inv(s) && Legal(s, ls) && !Doomed(s)
    ensures var t := After(s, ls);
            t.rpc.Terminated? <==> SomeStartReadsStopped(s, ls) && !t.rpc.StartSpawn?
    ensures Doomed(After(s, ls)) <==> SomeStartReadsStopped(s, ls)
    decreases |ls|
  {
    if ls == [] {
    } else {
      StepHolds(s, ls[0]);
      DoomedStep(s, ls[0]);
      if Doomed(Next(s, ls[0])) {
        DoomedStays(Next(s, ls[0]), ls[1..]);
      } else {
        RunEndsProcessIff(Next(s, ls[0]), ls[1..]);
      }
    }
  }

  lemma {:induction false} DoomedStays(s: State, ls: seq<Label>)
    requires Inv(s) && Legal(s, ls) && Doomed(s)
    ensures Doomed(After(s, ls))
    decreases |ls|
  {
    if ls == [] {
    } else {
      StepHolds(s, ls[0]);
      DoomedStep(s, ls[0]);
      DoomedStays(Next(s, ls[0]), ls[1..]);
    }
  }

  // ---- A Start that finds the recorder active ----

  predicate IsCall(l: Label) { l.CallStart? || l.CallStop? }

  predicate AtSpawn(s: State) { s.rpc.StartSpawn? }

  /** The run without the steps of the RPC thread. */
  function WithoutRpc(ls: seq<Label>): seq<Label> {
    if ls == [] then []
    else (if ls[0].RpcStep? then [] else [ls[0]]) + WithoutRpc(ls[1..])
  }

  /** The state as if no Start were under way. */
  function Hidden(s: State): State {
    s.(rpc := Idle, stopMtx := if s.stopMtx == HeldBy(RpcThread) then Free else s.stopMtx)
  }

  predicate InStart(s: State) { s.rpc.Idle? || s.rpc.StartWant? || s.rpc.StartHeld? }

  lemma HiddenStep(s: State, l: Label)
    requires ThreadInv(s) && InStart(s) && Enabled(s, l) && !l.RpcStep? && !IsCall(l)
    ensures Enabled(Hidden(s), l) && Next(Hidden(s), l) == Hidden(Next(s, l))
    ensures InStart(Next(s, l))
  {
    match l
    case RecStep(io) => HiddenStepRec(s, io);
    case BufStep(timeout) => HiddenStepBuf(s, timeout);
    case _ =>
  }

  lemma HiddenStepRec(s: State, io: RecIo)
    requires ThreadInv(s) && InStart(s) && RecEnabled(s, io)
    ensures RecEnabled(Hidden(s), io) && RecNext(Hidden(s), io) == Hidden(RecNext(s, io))
  {
  }

  lemma HiddenStepBuf(s: State, timeout: bool)
    requires ThreadInv(s) && InStart(s) && BufEnabled(s, timeout)
    ensures BufEnabled(Hidden(s), timeout) && BufNext(Hidden(s), timeout) == Hidden(BufNext(s, timeout))
  {
  }

  lemma HiddenRpcStep(s: State)
    requires ThreadInv(s) && LockInv(s) && InStart(s) && RpcEnabled(s) && !AtSpawn(RpcNext(s))
    ensures Hidden(RpcNext(s)) == Hidden(s) && InStart(RpcNext(s))
  {
  }

  /** A Start that reads m_stop false is invisible: whatever the other threads do before,
      during and after it, they do the same without it, and leave the same state but for
      the RPC thread's own point and lock. */
  lemma {:induction false} ActiveStartIsInvisible(s: State, ls: seq<Label>)
    requires Inv(s) && InStart(s) && Legal(s, ls)
    requires Count(ls, IsCall) == 0 && !Visits(s, ls, AtSpawn)
    ensures Legal(Hidden(s), WithoutRpc(ls))
    ensures After(Hidden(s), WithoutRpc(ls)) == Hidden(After(s, ls))
    decreases |ls|
  {
    if ls == [] {
    } else {
      var s' := Next(s, ls[0]);
      StepHolds(s, ls[0]);
      if ls[0].RpcStep? {
        assert !AtSpawn(s') by { assert !Visits(s', ls[1..], AtSpawn); }
        HiddenRpcStep(s);
        assert WithoutRpc(ls) == WithoutRpc(ls[1..]);
      } else {
        HiddenStep(s, ls[0]);
        assert WithoutRpc(ls)[0] == ls[0] && WithoutRpc(ls)[1..] == WithoutRpc(ls[1..]);
      }
      ActiveStartIsInvisible(s', ls[1..]);
    }
  }

  // ---- When a Start can end the process ----

  predicate BeforeSetup(r: RecPc) {
    r.ActivateStore? || r.ActivateStamp? || r.SpawnBuffer? || r.Setup?
  }

  /** Record has a device, or is going to. */
  predicate HasDevice(s: State)
    requires ValidConfig(s.cfg)
  {
    if BeforeSetup(s.rec) then DeviceMask.Selected(s.cfg.available, s.mem.mask, |s.cfg.available|) != []
    else s.mem.devs != []
  }

  /** Record may yet set the flag itself: by the deadline, or by an ESC from a device. */
  predicate FlagCanBeSet(s: State)
    requires ValidConfig(s.cfg)
  {
    && (Activated(s.rec) || s.rec.ActivateStore?) && !s.rec.JoinBuffer? && !s.rec.RecFinished?
    && (!s.cfg.continuous || HasDevice(s))
  }

  /** The flag is set, and not about to be cleared. */
  predicate FlagIsSet(s: State) { s.stop && !s.rec.ActivateStore? }

  /** Start would find, or could come to find, the flag set and the slot occupied. */
  predicate StartIsRisky(s: State)
    requires ValidConfig(s.cfg)
  {
    s.joinable && (FlagIsSet(s) || FlagCanBeSet(s))
  }

  /** A step on the shortest way to a set flag. */
  function Toward(s: State): Label {
    if (s.rec.TimedWant? || s.rec.EscWant?) && !s.stopMtx.Free? then BufStep(false)
    else if s.rec.PushWant? && !s.bufMtx.Free? then BufStep(false)
    else if s.rec.TimedRead? && s.clock < s.startTime + s.cfg.length then Tick(s.startTime + s.cfg.length)
    else if s.rec.Select? && s.cfg.continuous then RecStep(Ready)
    else if s.rec.Round? && s.cfg.continuous && s.rec.i < |s.mem.devs| then
      RecStep(Input(Event(EV_KEY, KEY_ESC, 1), 0))
    else RecStep(Quiet)
  }

  /** Steps of Record on that way. */
  function Distance(s: State): nat
    requires ThreadInv(s)
  {
    var n := |s.mem.devs|;
    match s.rec
    case EscStore(_) => 1
    case EscWant(_) => 2
    case Round(i) => if s.cfg.continuous then (if i < n then 3 else 6) else 6 + (n - i)
    case EscStamp(i) => 7 + (n - i)
    case PushHeld(_, _) => 7
    case PushWant(_, _) => 8
    case Select => if s.cfg.continuous then 4 else 6
    case TimedHeld(t) => if t - s.startTime >= s.cfg.length then 1 else 7
    case TimedWant(t) => if t - s.startTime >= s.cfg.length then 2 else 8
    case TimedRead => if s.clock < s.startTime + s.cfg.length then 4 else 3
    case LoopTop => 5
    case Setup => 6
    case SpawnBuffer => 7
    case ActivateStamp => 8
    case ActivateStore => 9
    case _ => 0
  }

  /** Steps for which processBuffer keeps a lock it holds. */
  function HoldLeft(s: State): nat {
    match s.buf
    case WaitHeld => 1
    case TimeoutHeld => 1
    case TrimHeld(_) => |s.mem.inputBuf| + 1
    case FinalHeld(_) => |s.mem.inputBuf| + 2
    case DumpHeld(_) => 1
    case _ => 0
  }

  predicate WaitingToStart(s: State) { s.rpc.StartWant? && s.joinable }

  /** s' is nearer to a set flag than s. */
  predicate Nearer(s: State, s': State)
    requires ThreadInv(s) && ThreadInv(s')
  {
    || FlagIsSet(s')
    || (FlagCanBeSet(s') &&
        (|| Distance(s') < Distance(s)
         || (Distance(s') == Distance(s) && HoldLeft(s') < HoldLeft(s))))
  }

  lemma TowardStepRec(s: State, io: RecIo)
    requires ThreadInv(s) && RecEnabled(s, io) && ThreadInv(RecNext(s, io))
    requires !FlagIsSet(s) && FlagCanBeSet(s) && Toward(s) == RecStep(io)
    ensures Nearer(s, RecNext(s, io)) && RecNext(s, io).joinable && RecNext(s, io).rpc == s.rpc
  {
  }

  lemma TowardStep(s: State)
    requires ThreadInv(s) && LockInv(s) && ThreadInv(SteppedToward(s)) && WaitingToStart(s)
    requires !FlagIsSet(s) && FlagCanBeSet(s)
    ensures Enabled(s, Toward(s)) && WaitingToStart(SteppedToward(s)) && Nearer(s, SteppedToward(s))
  {
    assert Enabled(s, Toward(s));
    match Toward(s)
    case RecStep(io) => TowardStepRec(s, io);
    case BufStep(timeout) =>
    case _ =>
  }

  function SteppedToward(s: State): State
    requires ValidConfig(s.cfg)
  {
    if Enabled(s, Toward(s)) then Next(s, Toward(s)) else s
  }

  /** Without another call, the run ls from s ends the process. */
  ghost predicate Terminates(s: State, ls: seq<Label>)
    requires ValidConfig(s.cfg)
  {
    Legal(s, ls) && Count(ls, IsCall) == 0 && After(s, ls).rpc.Terminated?
  }

  /** The Start that is under way can do so. */
  ghost predicate StartCanTerminate(s: State)
    requires ValidConfig(s.cfg)
  {
    exists ls :: Terminates(s, ls)
  }

  lemma TerminatesLater(s: State, l: Label, ls: seq<Label>)
    requires ValidConfig(s.cfg) && Enabled(s, l) && !IsCall(l)
    requires ValidConfig(Next(s, l).cfg) && Terminates(Next(s, l), ls)
    ensures Terminates(s, [l] + ls)
  {
    assert ([l] + ls)[1..] == ls;
  }

  lemma CanTerminateLater(s: State, l: Label)
    requires ValidConfig(s.cfg) && Enabled(s, l) && !IsCall(l)
    requires ValidConfig(Next(s, l).cfg) && StartCanTerminate(Next(s, l))
    ensures StartCanTerminate(s)
  {
    var ls :| Terminates(Next(s, l), ls);
    TerminatesLater(s, l, ls);
  }

  /** The RPC thread gets the lock while the flag is set. */
  lemma OverwriteRun(s: State)
    requires Inv(s) && WaitingToStart(s) && FlagIsSet(s) && s.stopMtx.Free?
    ensures StartCanTerminate(s)
  {
    var held := Next(s, RpcStep);
    var spawn := Next(held, RpcStep);
    assert Terminates(Next(spawn, RpcStep), []);
    CanTerminateLater(spawn, RpcStep);
    CanTerminateLater(held, RpcStep);
    CanTerminateLater(s, RpcStep);
  }

  /** Steps until stop_mtx is free, once the flag is set. */
  function LockLeft(s: State): nat {
    if s.stopMtx.Free? then 0 else if s.rec.EscStore? then 2 else 1
  }

  lemma {:induction false} ReleaseRun(s: State)
    requires Inv(s) && WaitingToStart(s) && FlagIsSet(s)
    ensures StartCanTerminate(s)
    decreases LockLeft(s)
  {
    if s.stopMtx.Free? {
      OverwriteRun(s);
    } else {
      var l := if s.stopMtx == HeldBy(RecThread) then RecStep(Quiet) else BufStep(false);
      StepHolds(s, l);
      ReleaseRun(Next(s, l));
      CanTerminateLater(s, l);
    }
  }

  /** While a Start waits for stop_mtx the flag can come to be set. */
  lemma {:induction false} FlagRun(s: State)
    requires Inv(s) && WaitingToStart(s) && (FlagIsSet(s) || FlagCanBeSet(s))
    ensures StartCanTerminate(s)
    decreases if FlagIsSet(s) then 0 else 1, Distance(s), HoldLeft(s)
  {
    if FlagIsSet(s) {
      ReleaseRun(s);
    } else {
      var l := Toward(s);
      if Enabled(s, l) { StepHolds(s, l); }
      TowardStep(s);
      FlagRun(Next(s, l));
      CanTerminateLater(s, l);
    }
  }

  /** A Start that is over, or that cannot find the flag set and the slot occupied. */
  predicate Harmless(s: State)
    requires ValidConfig(s.cfg)
  {
    || s.rpc.Idle?
    || ((s.rpc.StartWant? || s.rpc.StartHeld?) && !StartIsRisky(s))
    || (s.rpc.StartSpawn? && !s.joinable)
  }

  lemma HarmlessStepRec(s: State, io: RecIo)
    requires ThreadInv(s) && Harmless(s) && RecEnabled(s, io) && ValidConfig(RecNext(s, io).cfg)
    ensures Harmless(RecNext(s, io))
  {
  }

  lemma HarmlessStep(s: State, l: Label)
    requires ThreadInv(s) && LockInv(s) && Harmless(s) && Enabled(s, l) && !IsCall(l) && ValidConfig(Next(s, l).cfg)
    ensures Harmless(Next(s, l))
  {
    match l
    case RecStep(io) => HarmlessStepRec(s, io);
    case BufStep(timeout) =>
    case RpcStep =>
    case _ =>
  }

  lemma {:induction false} HarmlessStaysSafe(s: State, ls: seq<Label>)
    requires Inv(s) && Harmless(s) && Legal(s, ls) && Count(ls, IsCall) == 0
    ensures !After(s, ls).rpc.Terminated?
    decreases |ls|
  {
    if ls == [] {
    } else {
      StepHolds(s, ls[0]);
      HarmlessStep(s, ls[0]);
      HarmlessStaysSafe(Next(s, ls[0]), ls[1..]);
    }
  }

  /** The exact condition at the call: a Start can end the process if and only if the slot
      is occupied and the flag is set or Record may yet set it. */
  lemma StartCanTerminateIff(s: State)
    requires Inv(s) && s.rpc.Idle?
    ensures StartCanTerminate(Next(s, CallStart)) <==> StartIsRisky(s)
  {
    var c := Next(s, CallStart);
    StepHolds(s, CallStart);
    if StartIsRisky(s) {
      FlagRun(c);
    } else {
      forall ls | Legal(c, ls) && Count(ls, IsCall) == 0 ensures !Terminates(c, ls) {
        HarmlessStaysSafe(c, ls);
      }
    }
  }

  // ---- Start on an empty slot ----

  /** Between the call and the return of a Start on an empty slot that found the flag as
      given; once it has returned, the slot is occupied exactly if the flag was set. */
  predicate StartingFrom(s: State, wasStopped: bool) {
    match s.rpc
    case StartWant => !s.joinable && s.stop == wasStopped
    case StartHeld => !s.joinable && s.stop == wasStopped
    case StartSpawn => !s.joinable && wasStopped
    case Idle => s.joinable == wasStopped
    case _ => false
  }

  lemma StartingFromStep(s: State, l: Label, wasStopped: bool)
    requires ThreadInv(s) && StartingFrom(s, wasStopped) && Enabled(s, l) && !IsCall(l)
    ensures StartingFrom(Next(s, l), wasStopped)
  {
    match l
    case RecStep(io) =>
    case BufStep(timeout) =>
    case RpcStep =>
    case _ =>
  }

  lemma {:induction false} StartingFromRun(s: State, ls: seq<Label>, wasStopped: bool)
    requires Inv(s) && StartingFrom(s, wasStopped) && Legal(s, ls) && Count(ls, IsCall) == 0
    ensures StartingFrom(After(s, ls), wasStopped)
    decreases |ls|
  {
    if ls == [] {
    } else {
      StepHolds(s, ls[0]);
      StartingFromStep(s, ls[0], wasStopped);
      StartingFromRun(Next(s, ls[0]), ls[1..], wasStopped);
    }
  }

  /** A Start called on an empty slot never ends the process and, when it has returned, has
      started a thread if and only if the flag was set at the call. */
  lemma EmptySlotStartIff(s: State, ls: seq<Label>)
    requires Inv(s) && s.rpc.Idle? && !s.joinable
    requires Legal(Next(s, CallStart), ls) && Count(ls, IsCall) == 0
    ensures var t := After(Next(s, CallStart), ls);
            !t.rpc.Terminated? && (t.rpc.Idle? ==> (t.joinable <==> s.stop))
  {
    StepHolds(s, CallStart);
    StartingFromRun(Next(s, CallStart), ls, s.stop);
  }

  // ---- When m_stop is unset on an empty slot ----

  /** Record clears the flag that a waiting Stop has set. */
  predicate OverwritesStop(s: State, l: Label) {
    l.RecStep? && s.rec.ActivateStore? && StopStored(s)
  }

  /** Record leaves its loop because select failed. */
  predicate SelectFails(s: State, l: Label) {
    s.rec.Select? && l == RecStep(SelectFailed)
  }

  /** Some step of the run is of the given kind. */
  ghost predicate Makes(s: State, ls: seq<Label>, kind: (State, Label) -> bool)
    requires ValidConfig(s.cfg) && Legal(s, ls)
    decreases |ls|
  {
    ls != [] && (kind(s, ls[0]) || (ConfigIsFixed(s, ls[0]); Makes(Next(s, ls[0]), ls[1..], kind)))
  }

  /** Where the flag is unset although no Record runs, a select has failed; where it is
      unset although a Stop has stored it, that store was overwritten. */
  predicate UnsetFlagExplained(s: State, overwritten: bool, failed: bool) {
    && (!s.stop && s.rec.RecFinished? ==> failed)
    && (!s.stop && StopStored(s) && Activated(s.rec) ==> overwritten)
    && (!s.stop && s.rec.NoRecord? ==> overwritten && failed && !s.cfg.continuous)
  }

  lemma ExplainedStepRec(s: State, io: RecIo, overwritten: bool, failed: bool)
    requires ThreadInv(s) && UnsetFlagExplained(s, overwritten, failed) && RecEnabled(s, io)
    ensures UnsetFlagExplained(RecNext(s, io), overwritten || OverwritesStop(s, RecStep(io)),
                               failed || SelectFails(s, RecStep(io)))
  {
  }

  lemma ExplainedStep(s: State, l: Label, overwritten: bool, failed: bool)
    requires ThreadInv(s) && UnsetFlagExplained(s, overwritten, failed) && Enabled(s, l)
    ensures UnsetFlagExplained(Next(s, l), overwritten || OverwritesStop(s, l), failed || SelectFails(s, l))
  {
    match l
    case RecStep(io) => ExplainedStepRec(s, io, overwritten, failed);
    case BufStep(timeout) =>
    case RpcStep =>
    case _ =>
  }

  lemma {:induction false} ExplainedRun(s: State, ls: seq<Label>, overwritten: bool, failed: bool)
    requires Inv(s) && UnsetFlagExplained(s, overwritten, failed) && Legal(s, ls)
    ensures UnsetFlagExplained(After(s, ls), overwritten || Makes(s, ls, OverwritesStop),
                               failed || Makes(s, ls, SelectFails))
    decreases |ls|
  {
    if ls == [] {
    } else {
      StepHolds(s, ls[0]);
      ExplainedStep(s, ls[0], overwritten, failed);
      ExplainedRun(Next(s, ls[0]), ls[1..], overwritten || OverwritesStop(s, ls[0]),
                   failed || SelectFails(s, ls[0]));
    }
  }

  /** An empty slot with the flag unset, where Start does nothing and isActive() is true, is
      left only by a fixed-length recording whose Stop was overwritten and whose select
      failed. */
  lemma OnlyLostStopLeavesActive(cfg: Config, now: nat, ls: seq<Label>)
    requires ValidConfig(cfg) && Legal(Init(cfg, now), ls)
    requires !After(Init(cfg, now), ls).joinable && !After(Init(cfg, now), ls).stop
    ensures !After(Init(cfg, now), ls).cfg.continuous
    ensures Makes(Init(cfg, now), ls, OverwritesStop) && Makes(Init(cfg, now), ls, SelectFails)
  {
    InitHolds(cfg, now);
    RunHolds(Init(cfg, now), ls);
    ExplainedRun(Init(cfg, now), ls, false, false);
  }

  /** Record has left its loop with the flag unset, and no Stop has made its store. */
  predicate LeftActive(s: State) {
    && !s.stop && (s.rec.JoinBuffer? || NothingRuns(s.rec))
    && (s.rpc.Idle? || s.rpc.StartWant? || s.rpc.StartHeld?)
  }

  predicate IsStop(l: Label) { l.CallStop? }

  lemma LeftActiveStep(s: State, l: Label)
    requires ThreadInv(s) && LeftActive(s) && Enabled(s, l) && !IsStop(l)
    ensures LeftActive(Next(s, l)) && Next(s, l).rec == s.rec
    ensures Next(s, l).log.hist == s.log.hist && Next(s, l).mem.file == s.mem.file
  {
    match l
    case RecStep(io) =>
    case BufStep(timeout) =>
    case RpcStep =>
    case _ =>
  }

  /** After a failed select isActive() stays true, Start does nothing and nothing is recorded
      until Stop is called. */
  lemma {:induction false} FailedSelectStaysActive(s: State, ls: seq<Label>)
    requires Inv(s) && LeftActive(s) && Legal(s, ls) && Count(ls, IsStop) == 0
    ensures LeftActive(After(s, ls)) && After(s, ls).rec == s.rec
    ensures After(s, ls).log.hist == s.log.hist && After(s, ls).mem.file == s.mem.file
    decreases |ls|
  {
    if ls == [] {
    } else {
      StepHolds(s, ls[0]);
      LeftActiveStep(s, ls[0]);
      FailedSelectStaysActive(Next(s, ls[0]), ls[1..]);
    }
  }

  /** A failed select leads there unless the flag is set, a Stop is under way or a Start is
      about to start a thread. */
  lemma FailedSelectLeavesActive(s: State)
    requires Inv(s) && SelectFails(s, RecStep(SelectFailed)) && !s.rpc.Terminated? && !s.stop
    requires s.rpc.Idle? || s.rpc.StartWant? || s.rpc.StartHeld?
    ensures LeftActive(Next(s, RecStep(SelectFailed)))
  {
  }

  // ---- A stop is never undone ----

  predicate Starting(s: State) {
    s.rpc.StartWant? || s.rpc.StartHeld? || s.rpc.StartSpawn?
  }

  predicate IsStart(l: Label) { l.CallStart? }

  lemma StopStaysStep(s: State, l: Label)
    requires ThreadInv(s) && s.stop && !s.rec.ActivateWant? && !s.rec.ActivateStore? && !Starting(s)
    requires Enabled(s, l) && !IsStart(l)
    ensures var s' := Next(s, l);
            s'.stop && !s'.rec.ActivateWant? && !s'.rec.ActivateStore? && !Starting(s')
  {
    match l
    case RpcStep =>
    case RecStep(io) =>
    case BufStep(timeout) =>
    case _ =>
  }

  /** A stop is never undone: once set after activation, the flag stays until Start is
      called again. */
  lemma {:induction false} StopIsNeverUndone(s: State, ls: seq<Label>)
    requires Inv(s) && s.stop && !s.rec.ActivateWant? && !s.rec.ActivateStore? && !Starting(s)
    requires Legal(s, ls) && Count(ls, IsStart) == 0
    ensures After(s, ls).stop
    decreases |ls|
  {
    if ls == [] {
    } else {
      StepHolds(s, ls[0]);
      StopStaysStep(s, ls[0]);
      StopIsNeverUndone(Next(s, ls[0]), ls[1..]);
    }
  }
}
