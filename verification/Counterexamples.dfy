// Runs from construction in which the recorder does not do what one would expect of it.
module Counterexamples {
  import opened InputEvents
  import DeviceMask
  import opened RecorderProtocol
  import opened RecorderSafety
  import opened RecorderTheorems
  import opened RecorderProgress
  import opened RecorderStart

  /** At rest between sessions, at rest inside one. */
  predicate AtRest(s: State) {
    && s.rpc.Idle? && s.rec.NoRecord? && s.buf.NoBuffer? && !s.joinable && s.stop
    && s.stopMtx.Free? && s.bufMtx.Free? && s.cfg.continuous
  }

  predicate Recording(s: State) {
    && s.rpc.Idle? && s.rec.LoopTop? && s.buf.BufLoopTop? && s.joinable && !s.stop
    && s.stopMtx.Free? && s.bufMtx.Free? && s.cfg.continuous
  }

  /** Start, as far as the select loop. */
  lemma Open(s: State, ls: seq<Label>, t: State) returns (ls': seq<Label>, t': State)
    requires ValidConfig(s.cfg) && Legal(s, ls) && After(s, ls) == t && AtRest(t) && ValidConfig(t.cfg)
    ensures Legal(s, ls') && After(s, ls') == t' && Recording(t') && t'.cfg == t.cfg
    ensures t'.clock == t.clock && t'.startTime == t.clock && t'.stopTime == t.stopTime
    ensures t'.mem.inputBuf == t.mem.inputBuf && t'.log.dumps == t.log.dumps
    ensures t'.log.sessions == t.log.sessions + 1
    ensures t'.mem.mask == t.mem.mask
    ensures t'.mem.devs == DeviceMask.Selected(t.cfg.available, t.mem.mask, |t.cfg.available|)
  {
    ls', t' := Extend(s, ls, t, CallStart);
    ls', t' := Extend(s, ls', t', RpcStep);
    ls', t' := Extend(s, ls', t', RpcStep);
    ls', t' := Extend(s, ls', t', RpcStep);
    ls', t' := Extend(s, ls', t', RecStep(Quiet));
    ls', t' := Extend(s, ls', t', RecStep(Quiet));
    ls', t' := Extend(s, ls', t', RecStep(Quiet));
    ls', t' := Extend(s, ls', t', RecStep(Quiet));
    ls', t' := Extend(s, ls', t', RecStep(Quiet));
  }

  /** One round in which the only device delivers one event. */
  lemma ReadOne(s: State, ls: seq<Label>, t: State) returns (ls': seq<Label>, t': State)
    requires ValidConfig(s.cfg) && Legal(s, ls) && After(s, ls) == t && Recording(t) && ValidConfig(t.cfg)
    requires |t.mem.devs| == 1 && t.mem.inputBuf == []
    ensures Legal(s, ls') && After(s, ls') == t' && Recording(t') && t'.cfg == t.cfg && t'.mem.mask == t.mem.mask
    ensures t'.clock == t.clock && t'.log.dumps == t.log.dumps
    ensures |t'.mem.inputBuf| == 1 && t'.mem.inputBuf[0].tsAbs == t.clock
  {
    ls', t' := Extend(s, ls, t, RecStep(Quiet));
    ls', t' := Extend(s, ls', t', RecStep(Ready));
    ls', t' := Extend(s, ls', t', RecStep(Input(Event(EV_REL, REL_X, 1), 0)));
    ls', t' := Extend(s, ls', t', RecStep(Quiet));
    ls', t' := Extend(s, ls', t', RecStep(Quiet));
    ls', t' := Extend(s, ls', t', RecStep(Quiet));
  }

  predicate Stopped(s: State) {
    && s.rpc.StopJoin? && s.rec.JoinBuffer? && s.buf.ReadStopTime? && s.joinable && s.stop
    && s.stopMtx.Free? && s.bufMtx.Free? && s.cfg.continuous && s.stopTime == s.clock
  }

  lemma BeginStop(s: State, ls: seq<Label>, t: State) returns (ls': seq<Label>, t': State)
    requires ValidConfig(s.cfg) && Legal(s, ls) && After(s, ls) == t && Recording(t) && ValidConfig(t.cfg)
    ensures Legal(s, ls') && After(s, ls') == t' && Stopped(t') && t'.cfg == t.cfg
    ensures t'.clock == t.clock && t'.startTime == t.startTime && t'.mem == t.mem && t'.log.dumps == t.log.dumps
  {
    ls', t' := Extend(s, ls, t, CallStop);
    ls', t' := Extend(s, ls', t', RpcStep);
    ls', t' := Extend(s, ls', t', RpcStep);
    ls', t' := Extend(s, ls', t', RpcStep);
    ls', t' := Extend(s, ls', t', RpcStep);
    ls', t' := Extend(s, ls', t', RecStep(Quiet));
    ls', t' := Extend(s, ls', t', BufStep(false));
  }

  predicate Dumping(s: State) {
    && s.rpc.StopJoin? && s.rec.JoinBuffer? && s.buf.DumpHeld? && s.joinable && s.stop
    && s.stopMtx.Free? && s.bufMtx == HeldBy(BufThread) && s.cfg.continuous
    && s.stopTime == s.clock == s.buf.stopRead
  }

  /** A final trim that pops nothing. */
  lemma TrimNothing(s: State, ls: seq<Label>, t: State) returns (ls': seq<Label>, t': State)
    requires ValidConfig(s.cfg) && Legal(s, ls) && After(s, ls) == t && Stopped(t) && ValidConfig(t.cfg)
    requires |t.mem.inputBuf| == 1 && t.mem.inputBuf[0].tsAbs >= t.clock - t.cfg.length
    ensures Legal(s, ls') && After(s, ls') == t' && Dumping(t') && t'.cfg == t.cfg
    ensures t'.clock == t.clock && t'.startTime == t.startTime && t'.mem == t.mem
    ensures t'.log.dumps == t.log.dumps
  {
    ls', t' := Extend(s, ls, t, BufStep(false));
    ls', t' := Extend(s, ls', t', BufStep(false));
    ls', t' := Extend(s, ls', t', BufStep(false));
  }

  /** The dump and both joins. */
  lemma Finish(s: State, ls: seq<Label>, t: State) returns (ls': seq<Label>, t': State)
    requires ValidConfig(s.cfg) && Legal(s, ls) && After(s, ls) == t && Dumping(t) && ValidConfig(t.cfg)
    ensures Legal(s, ls') && After(s, ls') == t' && AtRest(t') && t'.cfg == t.cfg
    ensures t'.clock == t.clock && t'.mem == t.mem && |t'.log.dumps| == |t.log.dumps| + 1
    ensures var d := t'.log.dumps[|t.log.dumps|];
            && d.body == t.mem.inputBuf && d.stopRead == d.stopReadAgain == t.clock
            && d.header == Header(t.clock, t.clock, t.startTime, t.cfg.length)
  {
    ls', t' := Extend(s, ls, t, BufStep(false));
    ls', t' := Extend(s, ls', t', RecStep(Quiet));
    ls', t' := Extend(s, ls', t', RpcStep);
  }

  // ---- A header that is too late ----

  /** Record something, stop, start again a millisecond later and stop at once: the second
      dump begins with a record that is older than its header. */
  lemma SecondHeaderCanBeTooLate(cfg: Config, now: nat) returns (s: State)
    requires |cfg.available| == 1 && cfg.continuous && cfg.length >= 2
    ensures Reachable(s) && |s.log.dumps| == 2
    ensures var d := s.log.dumps[1];
            d.stopRead == d.stopReadAgain && d.body != [] && d.body[0].tsAbs < d.header
  {
    var s0 := Init(cfg, now);
    DeviceMask.DefaultMaskSelectsAll(cfg.available, 1);
    var ls, t := Open(s0, [], s0);
    ls, t := ReadOne(s0, ls, t);
    ls, t := BeginStop(s0, ls, t);
    ls, t := TrimNothing(s0, ls, t);
    ls, t := Finish(s0, ls, t);
    ls, t := Extend(s0, ls, t, Tick(now + 1));
    ls, t := Open(s0, ls, t);
    ls, t := BeginStop(s0, ls, t);
    ls, t := TrimNothing(s0, ls, t);
    ls, t := Finish(s0, ls, t);
    s := t;
  }

  // ---- A header before the epoch ----

  /** Stop has set the flag and not yet stamped m_stop_time, which is still 0 when
      processBuffer reads it for its final pass. */
  lemma ReadInTheGap(s: State, ls: seq<Label>, t: State) returns (ls': seq<Label>, t': State)
    requires ValidConfig(s.cfg) && Legal(s, ls) && After(s, ls) == t && Recording(t) && ValidConfig(t.cfg)
    requires t.mem.inputBuf == [] && t.stopTime == 0
    ensures Legal(s, ls') && After(s, ls') == t' && t'.cfg == t.cfg
    ensures t'.rpc.StopStamp? && t'.buf == DumpHeld(0) && t'.rec == t.rec && t'.joinable
    ensures t'.bufMtx == HeldBy(BufThread)
    ensures t'.clock == t.clock && t'.startTime == t.startTime
    ensures t'.log.dumps == t.log.dumps && t'.log.sessions == t.log.sessions
  {
    ls', t' := Extend(s, ls, t, CallStop);
    ls', t' := Extend(s, ls', t', RpcStep);
    ls', t' := Extend(s, ls', t', RpcStep);
    ls', t' := Extend(s, ls', t', BufStep(false));
    ls', t' := Extend(s, ls', t', BufStep(false));
    ls', t' := Extend(s, ls', t', BufStep(false));
    ls', t' := Extend(s, ls', t', BufStep(false));
  }

  /** A first session that is stopped after the window's length: the two reads of
      m_stop_time fall on either side of the stamp, and the header is negative. */
  lemma HeaderCanBeNegative(cfg: Config, now: nat) returns (s: State)
    requires ValidConfig(cfg) && cfg.continuous && cfg.length > 0
    ensures Reachable(s) && |s.log.dumps| == 1 && s.log.dumps[0].session == 1
    ensures s.log.dumps[0].header + cfg.length == 0
  {
    var s0 := Init(cfg, now);
    var ls, t := Open(s0, [], s0);
    ls, t := Extend(s0, ls, t, Tick(now + cfg.length));
    ls, t := ReadInTheGap(s0, ls, t);
    ls, t := Extend(s0, ls, t, RpcStep);
    ls, t := Extend(s0, ls, t, BufStep(false));
    s := t;
  }

  // ---- A Start that ends the process ----

  /** Start on a recorder that is active, with a device: isActive() may come to see a flag
      that Record has set meanwhile. */
  lemma ActiveStartCanTerminate(cfg: Config, now: nat) returns (s: State)
    requires ValidConfig(cfg) && cfg.available != [] && cfg.continuous
    ensures Reachable(s) && Inv(s) && s.cfg == cfg
    ensures s.rpc.Idle? && s.joinable && !s.stop
    ensures StartCanTerminate(Next(s, CallStart))
  {
    var s0 := Init(cfg, now);
    DeviceMask.DefaultMaskSelectsAll(cfg.available, |cfg.available|);
    assert cfg.available[..|cfg.available|] == cfg.available;
    var ls, t := Open(s0, [], s0);
    s := t;
    ReachableHolds(s);
    StartCanTerminateIff(s);
  }

  // ---- An active recorder without a thread ----

  /** Start of a fixed-length recording, overtaken by a Stop. */
  lemma OverwrittenStop(s: State) returns (ls: seq<Label>, t: State)
    requires Inv(s) && s.rpc.Idle? && !s.joinable && s.stop && !s.cfg.continuous
    ensures Legal(s, ls) && After(s, ls) == t
    ensures t.rpc.StopJoin? && t.rec.SpawnBuffer? && !t.stop && t.joinable
    ensures t.stopMtx.Free? && t.cfg == s.cfg && t.clock == t.startTime
  {
    ls, t := StartedRun(s);
    ls, t := Extend(s, ls, t, CallStop);
    ls, t := Extend(s, ls, t, RpcStep);
    ls, t := Extend(s, ls, t, RpcStep);
    ls, t := Extend(s, ls, t, RpcStep);
    ls, t := Extend(s, ls, t, RpcStep);
    ls, t := Extend(s, ls, t, RecStep(Quiet));
    ls, t := Extend(s, ls, t, RecStep(Quiet));
    ls, t := Extend(s, ls, t, RecStep(Quiet));
  }

  /** select fails, and the join returns. */
  lemma FailedSelect(s: State, ls: seq<Label>, t: State) returns (ls': seq<Label>, t': State)
    requires ValidConfig(s.cfg) && Legal(s, ls) && After(s, ls) == t && ValidConfig(t.cfg)
    requires t.rpc.StopJoin? && t.rec.SpawnBuffer? && !t.stop && t.joinable
    requires t.stopMtx.Free? && !t.cfg.continuous && t.clock - t.startTime < t.cfg.length
    ensures Legal(s, ls') && After(s, ls') == t'
    ensures t'.rpc.Idle? && !t'.joinable && t'.rec.NoRecord? && !t'.stop && t'.cfg == t.cfg
  {
    ls', t' := Extend(s, ls, t, RecStep(Quiet));
    ls', t' := Extend(s, ls', t', RecStep(Quiet));
    ls', t' := Extend(s, ls', t', RecStep(Quiet));
    ls', t' := Extend(s, ls', t', RecStep(Quiet));
    ls', t' := Extend(s, ls', t', RecStep(Quiet));
    ls', t' := Extend(s, ls', t', RecStep(Quiet));
    ls', t' := Extend(s, ls', t', RecStep(SelectFailed));
    ls', t' := Extend(s, ls', t', RpcStep);
  }

  /** Every fixed-length recorder can come to rest with an empty slot and isActive() true:
      its Stop is overwritten, then select fails. */
  lemma ActiveWithoutThread(cfg: Config, now: nat) returns (s: State)
    requires ValidConfig(cfg) && !cfg.continuous && cfg.length > 0
    ensures Reachable(s) && s.cfg == cfg
    ensures s.rpc.Idle? && s.rec.NoRecord? && !s.joinable && !s.stop
  {
    var s0 := Init(cfg, now);
    InitHolds(cfg, now);
    var ls, t := OverwrittenStop(s0);
    ls, t := FailedSelect(s0, ls, t);
    s := t;
  }
}
