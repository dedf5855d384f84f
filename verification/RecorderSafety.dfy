// What every step of the recorder keeps, and so what holds in every reachable state.
module RecorderSafety {
  import opened InputEvents
  import opened RecorderProtocol
  import DeviceMask

  // ---- Locks ----

  predicate HoldsStop(s: State, t: ThreadId) {
    match t
    case RpcThread => s.rpc.StartHeld? || s.rpc.StopStore? || s.rpc.StopStamp?
    case RecThread => s.rec.ActivateStore? || s.rec.ActivateStamp? || s.rec.TimedHeld?
                   || s.rec.EscStore? || s.rec.EscStamp?
    case BufThread => s.buf.WaitHeld? || s.buf.TimeoutHeld?
  }

  predicate HoldsBuf(s: State, t: ThreadId) {
    match t
    case RpcThread => false
    case RecThread => s.rec.PushHeld?
    case BufThread => s.buf.TrimHeld? || s.buf.FinalHeld? || s.buf.DumpHeld?
  }

  ghost predicate LockInv(s: State) {
    && (HoldsStop(s, RpcThread) <==> s.stopMtx == HeldBy(RpcThread))
    && (HoldsStop(s, RecThread) <==> s.stopMtx == HeldBy(RecThread))
    && (HoldsStop(s, BufThread) <==> s.stopMtx == HeldBy(BufThread))
    && (HoldsBuf(s, RecThread) <==> s.bufMtx == HeldBy(RecThread))
    && (HoldsBuf(s, BufThread) <==> s.bufMtx == HeldBy(BufThread))
    && s.bufMtx != HeldBy(RpcThread)
  }

  // ---- Threads and the stop flag ----

  /** Record has stored m_stop = false and is still there. */
  predicate Activated(r: RecPc) {
    !r.NoRecord? && !r.ActivateWant? && !r.ActivateStore?
  }

  /** The stretch of Record during which its buffer thread exists. */
  predicate BetweenSpawnAndJoin(r: RecPc) {
    Activated(r) && !r.ActivateStamp? && !r.SpawnBuffer? && !r.RecFinished?
  }

  /** devices_to_record has been computed and the file opened. */
  predicate InLoop(r: RecPc) {
    BetweenSpawnAndJoin(r) && !r.Setup?
  }

  predicate AtDevice(r: RecPc) {
    r.EscWant? || r.EscStore? || r.EscStamp? || r.PushWant? || r.PushHeld?
  }

  /** processBuffer has seen the stop flag and left its loop. */
  predicate PastLoop(b: BufPc) {
    b.ReadStopTime? || b.FinalWant? || b.FinalHeld? || b.DumpHeld? || b.BufFinished?
  }

  ghost predicate ThreadInv(s: State) {
    && ValidConfig(s.cfg)
    && (s.joinable <==> !s.rec.NoRecord?)
    && (!s.buf.NoBuffer? <==> s.cfg.continuous && BetweenSpawnAndJoin(s.rec))
    && (s.rec.TimedRead? || s.rec.TimedWant? || s.rec.TimedHeld? ==> !s.cfg.continuous)
    && (s.rec.PushWant? || s.rec.PushHeld? || s.rec.JoinBuffer? ==> s.cfg.continuous)
    && |s.mem.devs| <= |s.cfg.available|
    && (s.rec.Round? ==> s.rec.i <= |s.mem.devs|)
    && (AtDevice(s.rec) ==> s.rec.i < |s.mem.devs|)
    && (s.rec.ActivateWant? || s.rec.ActivateStore? ==> s.stop)
    && (s.rpc.StartSpawn? && !s.joinable ==> s.stop)
    && (PastLoop(s.buf) ==> s.stop)
    && (s.cfg.continuous && s.rec.RecFinished? ==> s.stop)
  }

  // ---- Time ----

  ghost predicate Sorted(h: seq<InputRecord>) {
    forall i, j :: 0 <= i < j < |h| ==> h[i].tsAbs <= h[j].tsAbs
  }

  ghost predicate AllWithin(h: seq<InputRecord>, lo: int, hi: int) {
    forall i :: 0 <= i < |h| ==> lo <= h[i].tsAbs <= hi
  }

  /** m_start_time belongs to the current session. */
  predicate Stamped(r: RecPc) {
    Activated(r) && !r.ActivateStamp?
  }

  ghost predicate ClockInv(s: State) {
    && 0 <= s.startTime <= s.clock && 0 <= s.stopTime <= s.clock
    && (s.rec.TimedWant? || s.rec.TimedHeld? ==> s.rec.t <= s.clock)
    && s.log.base <= |s.log.hist|
    && (s.log.sessions <= 1 ==> s.log.base == 0)
    && (s.log.sessions == 0 ==> s.log.hist == [])
    && (Stamped(s.rec) ==> s.log.sessions > 0)
  }

  ghost predicate TimeInv(s: State) {
    && ClockInv(s)
    && Sorted(Seen(s))
    && AllWithin(Seen(s), 0, s.clock)
    // since m_start_time was stored, everything read is at least that late
    && (Stamped(s.rec) ==> AllWithin(Seen(s)[s.log.base..], s.startTime, s.clock))
  }

  // ---- Records ----

  /** What may be recorded: never an ESC key event, always an event of an available device. */
  predicate Recordable(cfg: Config, r: InputRecord) {
    !IsEscape(r.event) && exists d :: d in cfg.available && d.kind == r.dev
  }

  ghost predicate RecordInv(s: State) {
    && (forall d :: d in s.mem.devs ==> d in s.cfg.available)
    && (forall r :: r in s.log.hist ==> Recordable(s.cfg, r))
    && (forall r :: r in s.mem.file ==> Recordable(s.cfg, r))
    && (forall r :: r in Pending(s.rec) ==> Recordable(s.cfg, r))
  }

  /** Some device of ds is of the record's kind, which is all a record tells of its device. */
  predicate DeliveredBy(ds: seq<Device>, r: InputRecord) {
    exists d :: d in ds && d.kind == r.dev
  }

  ghost predicate AllDeliveredBy(ds: seq<Device>, rs: seq<InputRecord>) {
    forall i :: 0 <= i < |rs| ==> DeliveredBy(ds, rs[i])
  }

  /** What the current session recorded was delivered by the devices it selected. */
  ghost predicate SourceInv(s: State) {
    && ValidConfig(s.cfg) && s.log.base <= |s.log.hist|
    && (forall d :: d in s.mem.devs ==>
          d in DeviceMask.Selected(s.cfg.available, s.log.inForce, |s.cfg.available|))
    && (s.rec.SpawnBuffer? || s.rec.Setup? ==> s.log.base == |s.log.hist|)
    && (s.cfg.continuous ==> s.mem.file == [])
    && AllDeliveredBy(s.mem.devs, Seen(s)[s.log.base..])
    && AllDeliveredBy(s.mem.devs, s.mem.file)
  }

  // ---- The stop time ----

  /** A thread has set the flag and is about to write m_stop_time. */
  predicate BetweenStoreAndStamp(s: State) {
    s.rpc.StopStamp? || s.rec.EscStamp?
  }

  /** In continuous mode a set flag comes with a stop time of the same session, except in
      that gap. */
  ghost predicate StopTimeInv(s: State) {
    && (s.rec.ActivateStamp? ==> !s.stop) && (s.rec.EscStamp? ==> s.stop)
    && (s.cfg.continuous && Stamped(s.rec) && s.stop && !BetweenStoreAndStamp(s) ==> s.startTime <= s.stopTime)
  }

  /** m_stop_time separates what was read before it was written from what was read since. */
  ghost predicate StampInv(s: State) {
    && s.log.stamped <= |Seen(s)|
    && (forall i :: 0 <= i < s.log.stamped ==> Seen(s)[i].tsAbs <= s.stopTime)
    && (forall i :: s.log.stamped <= i < |Seen(s)| ==> s.stopTime <= Seen(s)[i].tsAbs)
  }

  // ---- How many dumps ----

  /** The current session has begun and not yet written its dump. */
  predicate DumpIsDue(s: State) {
    Stamped(s.rec) && !s.rec.RecFinished? && !s.buf.BufFinished?
  }

  /** Every continuous session writes one dump, a fixed-length one none. */
  predicate DumpCountInv(s: State) {
    if s.cfg.continuous then |s.log.dumps| + (if DumpIsDue(s) then 1 else 0) == s.log.sessions
    else s.log.dumps == []
  }

  // ---- Preservation ----

  lemma LockStep(s: State, l: Label)
    requires ThreadInv(s) && LockInv(s) && Enabled(s, l)
    ensures LockInv(Next(s, l))
  {
    match l
    case RpcStep => LockStepRpc(s);
    case RecStep(io) => LockStepRec(s, io);
    case BufStep(timeout) => LockStepBuf(s, timeout);
    case _ =>
  }

  lemma LockStepRpc(s: State)
    requires ThreadInv(s) && LockInv(s) && RpcEnabled(s)
    ensures LockInv(RpcNext(s))
  {
  }

  lemma LockStepRec(s: State, io: RecIo)
    requires ThreadInv(s) && LockInv(s) && RecEnabled(s, io)
    ensures LockInv(RecNext(s, io))
  {
    match s.rec
    case ActivateWant =>
    case ActivateStore =>
    case ActivateStamp =>
    case SpawnBuffer =>
    case Setup =>
    case LoopTop =>
    case TimedRead =>
    case TimedWant(t) =>
    case TimedHeld(t) =>
    case Select =>
    case Round(i) =>
    case EscWant(i) =>
    case EscStore(i) =>
    case EscStamp(i) =>
    case PushWant(i, r) =>
    case PushHeld(i, r) =>
    case JoinBuffer =>
  }

  lemma LockStepBuf(s: State, timeout: bool)
    requires LockInv(s) && BufEnabled(s, timeout)
    ensures LockInv(BufNext(s, timeout))
  {
  }

  lemma ThreadStep(s: State, l: Label)
    requires ThreadInv(s) && Enabled(s, l)
    ensures ThreadInv(Next(s, l))
  {
    match l
    case RpcStep => ThreadStepRpc(s);
    case RecStep(io) => ThreadStepRec(s, io);
    case BufStep(timeout) => ThreadStepBuf(s, timeout);
    case _ =>
  }

  lemma ThreadStepRpc(s: State)
    requires ThreadInv(s) && RpcEnabled(s)
    ensures ThreadInv(RpcNext(s))
  {
  }

  lemma ThreadStepRec(s: State, io: RecIo)
    requires ThreadInv(s) && RecEnabled(s, io)
    ensures ThreadInv(RecNext(s, io))
  {
    if s.rec.Setup? {
      DeviceMask.SelectedIsShort(s.cfg.available, s.mem.mask, |s.cfg.available|);
    }
  }

  lemma ThreadStepBuf(s: State, timeout: bool)
    requires ThreadInv(s) && BufEnabled(s, timeout)
    ensures ThreadInv(BufNext(s, timeout))
  {
  }

  lemma RecordStep(s: State, l: Label)
    requires ThreadInv(s) && RecordInv(s) && Enabled(s, l)
    ensures RecordInv(Next(s, l))
  {
    match l
    case RecStep(io) => RecordStepRec(s, io);
    case BufStep(timeout) =>
    case RpcStep =>
    case _ =>
  }

  lemma RecordStepRec(s: State, io: RecIo)
    requires ThreadInv(s) && RecordInv(s) && RecEnabled(s, io)
    ensures RecordInv(RecNext(s, io))
  {
    var s' := RecNext(s, io);
    if s.rec.Setup? {
      DeviceMask.SelectedIsShort(s.cfg.available, s.mem.mask, |s.cfg.available|);
    } else if s.rec.Round? && io.Input? {
      assert s.mem.devs[s.rec.i] in s.cfg.available;
      assert forall r :: r in s'.mem.file ==> r in s.mem.file || Recordable(s.cfg, r);
    }
  }

  /** Everything SourceInv speaks of is as it was. */
  predicate SourceSame(s: State, s': State) {
    && s'.cfg == s.cfg && s'.mem.devs == s.mem.devs && s'.mem.file == s.mem.file
    && s'.log.inForce == s.log.inForce && s'.log.base == s.log.base
    && s'.log.hist == s.log.hist && Pending(s'.rec) == Pending(s.rec)
    && (s'.rec.SpawnBuffer? || s'.rec.Setup? ==> s.rec.SpawnBuffer? || s.rec.Setup?)
  }

  /** Points of Record whose step records something or changes the selection. */
  predicate SourceMoves(r: RecPc) {
    r.ActivateStamp? || r.Setup? || r.Round? || r.PushHeld?
  }

  lemma SourceStep(s: State, l: Label)
    requires ThreadInv(s) && SourceInv(s) && Enabled(s, l)
    ensures SourceInv(Next(s, l))
  {
    if l.RecStep? && SourceMoves(s.rec) {
      SourceStepRec(s, l.io);
    } else {
      SourceSameStep(s, l);
    }
  }

  lemma SourceSameStepRec(s: State, io: RecIo)
    requires ThreadInv(s) && RecEnabled(s, io) && !SourceMoves(s.rec)
    ensures SourceSame(s, RecNext(s, io))
  {
  }

  lemma SourceSameStep(s: State, l: Label)
    requires ThreadInv(s) && Enabled(s, l) && !(l.RecStep? && SourceMoves(s.rec))
    ensures SourceSame(s, Next(s, l))
  {
    match l
    case RecStep(io) => SourceSameStepRec(s, io);
    case BufStep(timeout) =>
    case RpcStep =>
    case _ =>
  }

  lemma SourceStepRec(s: State, io: RecIo)
    requires ThreadInv(s) && SourceInv(s) && RecEnabled(s, io) && SourceMoves(s.rec)
    ensures SourceInv(RecNext(s, io))
  {
    var s' := RecNext(s, io);
    if s.rec.Round? {
      SourceStepRound(s, io);
    } else if s.rec.PushHeld? {
      assert Seen(s') == Seen(s);
    }
  }

  lemma SourceStepRound(s: State, io: RecIo)
    requires ThreadInv(s) && SourceInv(s) && RecEnabled(s, io) && s.rec.Round?
    ensures SourceInv(RecNext(s, io))
  {
    var s' := RecNext(s, io);
    if s.rec.i < |s.mem.devs| && io.Input? {
      var r := MakeRecord(s.clock, s.mem.devs[s.rec.i], io.ev, io.keysym);
      assert DeliveredBy(s.mem.devs, r);
      if s'.rec.PushWant? { assert Seen(s')[s.log.base..] == Seen(s)[s.log.base..] + [r]; }
    }
  }

  lemma StopTimeStep(s: State, l: Label)
    requires ThreadInv(s) && LockInv(s) && ClockInv(s) && StopTimeInv(s) && Enabled(s, l)
    ensures StopTimeInv(Next(s, l))
  {
    match l
    case RpcStep =>
    case RecStep(io) =>
    case BufStep(timeout) =>
    case _ =>
  }

  lemma ClockStep(s: State, l: Label)
    requires ThreadInv(s) && ClockInv(s) && Enabled(s, l)
    ensures ClockInv(Next(s, l))
  {
    match l
    case RpcStep => ClockStepRpc(s);
    case RecStep(io) => ClockStepRec(s, io);
    case BufStep(timeout) => ClockStepBuf(s, timeout);
    case _ =>
  }

  lemma ClockStepRpc(s: State)
    requires ThreadInv(s) && ClockInv(s) && RpcEnabled(s)
    ensures ClockInv(RpcNext(s))
  {
  }

  lemma ClockStepRec(s: State, io: RecIo)
    requires ThreadInv(s) && ClockInv(s) && RecEnabled(s, io)
    ensures ClockInv(RecNext(s, io))
  {
  }

  lemma ClockStepBuf(s: State, timeout: bool)
    requires ClockInv(s) && BufEnabled(s, timeout)
    ensures ClockInv(BufNext(s, timeout))
  {
  }

  /** How a step may change what was read: nothing, or one record of the current time. */
  ghost predicate SeenGrows(s: State, s': State) {
    || Seen(s') == Seen(s)
    || (s'.rec.PushWant? && s'.rec.r.tsAbs == s.clock && Seen(s') == Seen(s) + [s'.rec.r])
  }

  /** Either m_stop_time is written now, or it and what was read before it stay. */
  lemma StampCases(s: State, l: Label)
    requires ThreadInv(s) && Enabled(s, l)
    ensures var s' := Next(s, l);
            || (s'.stopTime == s.stopTime && s'.log.stamped == s.log.stamped)
            || (s'.stopTime == s.clock && s'.log.stamped == |Seen(s)| && Seen(s') == Seen(s))
  {
    match l
    case RpcStep =>
    case RecStep(io) =>
    case BufStep(timeout) =>
    case _ =>
  }

  lemma StampStep(s: State, l: Label)
    requires ThreadInv(s) && TimeInv(s) && StampInv(s) && Enabled(s, l)
    ensures StampInv(Next(s, l))
  {
    StampCases(s, l);
    SeenStep(s, l);
  }

  lemma DumpCountStepRec(s: State, io: RecIo)
    requires ThreadInv(s) && DumpCountInv(s) && RecEnabled(s, io)
    ensures DumpCountInv(RecNext(s, io))
  {
  }

  lemma DumpCountStepBuf(s: State, timeout: bool)
    requires ThreadInv(s) && DumpCountInv(s) && BufEnabled(s, timeout)
    ensures DumpCountInv(BufNext(s, timeout))
  {
  }

  lemma DumpCountStep(s: State, l: Label)
    requires ThreadInv(s) && DumpCountInv(s) && Enabled(s, l)
    ensures DumpCountInv(Next(s, l))
  {
    match l
    case RecStep(io) => DumpCountStepRec(s, io);
    case BufStep(timeout) => DumpCountStepBuf(s, timeout);
    case RpcStep =>
    case _ =>
  }

  /** A step keeps the session's start, or begins a session. */
  ghost predicate SessionKept(s: State, s': State) {
    && s.clock <= s'.clock
    && (Stamped(s'.rec) ==>
          || (Stamped(s.rec) && s'.log.base == s.log.base && s'.startTime == s.startTime)
          || s'.log.base == |Seen(s')|)
  }

  lemma SeenStep(s: State, l: Label)
    requires ThreadInv(s) && Enabled(s, l)
    ensures SeenGrows(s, Next(s, l)) && s.log.hist <= Next(s, l).log.hist
  {
    match l
    case RpcStep =>
    case RecStep(io) =>
    case BufStep(timeout) =>
    case _ =>
  }

  lemma SessionStep(s: State, l: Label)
    requires ThreadInv(s) && Enabled(s, l)
    ensures SessionKept(s, Next(s, l))
  {
    match l
    case RpcStep =>
    case RecStep(io) =>
    case BufStep(timeout) =>
    case _ =>
  }

  lemma TimeKept(s: State, s': State)
    requires TimeInv(s) && ClockInv(s') && SeenGrows(s, s') && SessionKept(s, s')
    ensures TimeInv(s')
  {
    var h, h' := Seen(s), Seen(s');
    forall i, j | 0 <= i < j < |h'| ensures h'[i].tsAbs <= h'[j].tsAbs {
      if j < |h| { assert h[i].tsAbs <= h[j].tsAbs; } else { assert h'[i] == h[i]; }
    }
    assert AllWithin(h', 0, s'.clock);
    if Stamped(s'.rec) && s'.log.base < |h'| {
      forall i | s'.log.base <= i < |h'| ensures s'.startTime <= h'[i].tsAbs {
        if i < |h| { assert h[i] == h[s.log.base..][i - s.log.base]; }
      }
    }
  }

  lemma TimeStep(s: State, l: Label)
    requires ThreadInv(s) && TimeInv(s) && Enabled(s, l)
    ensures TimeInv(Next(s, l))
  {
    ClockStep(s, l);
    SeenStep(s, l);
    SessionStep(s, l);
    TimeKept(s, Next(s, l));
  }
}
