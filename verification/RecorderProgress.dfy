// When Stop returns, and when it does not.
module RecorderProgress {
  import opened InputEvents
  import opened RecorderProtocol
  import opened RecorderSafety
  import opened RecorderTheorems

  /** Some state along the run satisfies the goal. */
  ghost predicate Visits(s: State, ls: seq<Label>, goal: State -> bool)
    requires ValidConfig(s.cfg) && Legal(s, ls)
    decreases |ls|
  {
    goal(s) || (ls != [] && (ConfigIsFixed(s, ls[0]); Visits(Next(s, ls[0]), ls[1..], goal)))
  }

  predicate HasReturned(s: State) { s.rpc.Idle? }

  predicate RecordHasEnded(s: State) { s.rec.RecFinished? }

  predicate IsWorkerStep(l: Label) { l.RecStep? || l.BufStep? }

  predicate IsRecordStep(l: Label) { l.RecStep? }

  predicate IsThreadStep(l: Label) { l.RpcStep? || IsWorkerStep(l) }

  /** How many of the labels satisfy p. */
  function Count(ls: seq<Label>, p: Label -> bool): nat {
    if ls == [] then 0 else (if p(ls[0]) then 1 else 0) + Count(ls[1..], p)
  }

  // ---- The stop flag is set and Record has activated ----

  predicate Halting(s: State) {
    s.stop && Activated(s.rec)
  }

  /** Steps Record has left once the flag is set; a push counts for what it adds. */
  function RecRank(s: State): nat
    requires ThreadInv(s)
  {
    var n := |s.cfg.available|;
    match s.rec
    case NoRecord => 0
    case RecFinished => 0
    case JoinBuffer => 1
    case LoopTop => 2
    case Round(i) => 3 + 5 * (n - i)
    case EscWant(i) => 2 + 5 * (n - i)
    case EscStore(i) => 1 + 5 * (n - i)
    case EscStamp(i) => 5 * (n - i)
    case PushWant(i, _) => 2 + 5 * (n - i)
    case PushHeld(i, _) => 1 + 5 * (n - i)
    case Select => 4 + 5 * n
    case TimedHeld(_) => 5 + 5 * n
    case TimedWant(_) => 6 + 5 * n
    case TimedRead => 7 + 5 * n
    case Setup => 8 + 5 * n
    case SpawnBuffer => 12 + 5 * n
    case ActivateStamp => 13 + 5 * n
    case ActivateStore => 14 + 5 * n
    case ActivateWant => 15 + 5 * n
  }

  /** Steps processBuffer has left once the flag is set, pops aside. */
  function BufRank(s: State): nat {
    match s.buf
    case NoBuffer => 0
    case BufFinished => 0
    case DumpHeld(_) => 1
    case FinalHeld(_) => 2
    case FinalWant(_) => 3
    case ReadStopTime => 4
    case BufLoopTop => 5
    case TrimHeld(_) => 6
    case TrimWant(_) => 7
    case TrimClock => 8
    case WaitHeld => 9
    case TimeoutHeld => 9
    case WaitWant => 10
    case TimeoutWant => 10
    case Waiting => 11
  }

  function WorkLeft(s: State): nat
    requires ThreadInv(s)
  {
    2 * RecRank(s) + |s.mem.inputBuf| + BufRank(s)
  }

  lemma RecRankDrops(s: State, io: RecIo)
    requires ThreadInv(s) && Halting(s) && RecEnabled(s, io) && ThreadInv(RecNext(s, io))
    ensures RecRank(RecNext(s, io)) + (if s.rec.SpawnBuffer? then 4 else 1) <= RecRank(s)
  {
  }

  lemma RecStepWorks(s: State, io: RecIo)
    requires ThreadInv(s) && Halting(s) && RecEnabled(s, io) && ThreadInv(RecNext(s, io))
    ensures Halting(RecNext(s, io)) && WorkLeft(RecNext(s, io)) < WorkLeft(s)
  {
    RecRankDrops(s, io);
    var s' := RecNext(s, io);
    assert |s'.mem.inputBuf| <= |s.mem.inputBuf| + 1;
    assert s.rec.SpawnBuffer? || s'.rec == RecFinished || BufRank(s') <= BufRank(s);
    assert s.rec.PushHeld? || s'.mem.inputBuf == s.mem.inputBuf;
  }

  lemma BufStepWorks(s: State, timeout: bool)
    requires ThreadInv(s) && Halting(s) && BufEnabled(s, timeout) && ThreadInv(BufNext(s, timeout))
    ensures Halting(BufNext(s, timeout)) && WorkLeft(BufNext(s, timeout)) < WorkLeft(s)
  {
  }

  lemma OtherStepKeepsWork(s: State, l: Label)
    requires ThreadInv(s) && Halting(s) && Enabled(s, l) && ThreadInv(Next(s, l))
    requires !IsWorkerStep(l) && !s.rec.RecFinished?
    ensures Halting(Next(s, l)) && WorkLeft(Next(s, l)) <= WorkLeft(s)
  {
    var s' := Next(s, l);
    assert s'.rec == s.rec && s'.stop && s'.mem.inputBuf == s.mem.inputBuf && s'.cfg == s.cfg;
    assert BufRank(s') <= BufRank(s);
  }

  /** Every step of a worker thread uses up some of the work left; nothing else adds
      to it, and only joining the finished thread ends the halt. */
  lemma HaltStep(s: State, l: Label)
    requires ThreadInv(s) && Halting(s) && Enabled(s, l) && ThreadInv(Next(s, l))
    ensures IsWorkerStep(l) ==> Halting(Next(s, l)) && WorkLeft(Next(s, l)) < WorkLeft(s)
    ensures !IsWorkerStep(l) && !s.rec.RecFinished? ==>
              Halting(Next(s, l)) && WorkLeft(Next(s, l)) <= WorkLeft(s)
  {
    match l
    case RecStep(io) => RecStepWorks(s, io);
    case BufStep(timeout) => BufStepWorks(s, timeout);
    case _ => if !s.rec.RecFinished? { OtherStepKeepsWork(s, l); }
  }

  /** However the flag was set, by Stop or by ESC: Record and processBuffer finish within
      WorkLeft of their own steps. */
  lemma {:induction false} HaltCompletes(s: State, ls: seq<Label>)
    requires Inv(s) && Halting(s) && Legal(s, ls) && Count(ls, IsWorkerStep) > WorkLeft(s)
    ensures Visits(s, ls, RecordHasEnded)
    decreases |ls|
  {
    if s.rec.RecFinished? {
    } else {
      StepHolds(s, ls[0]);
      HaltStep(s, ls[0]);
      HaltCompletes(Next(s, ls[0]), ls[1..]);
    }
  }

  /** And they cannot block one another on the way: some thread can always step. */
  lemma HaltNeverDeadlocks(s: State) returns (l: Label)
    requires Inv(s) && Halting(s) && !s.rec.RecFinished? && !s.rpc.Terminated?
    ensures IsThreadStep(l) && Enabled(s, l)
  {
    if RecEnabled(s, Quiet) {
      l := RecStep(Quiet);
    } else if BufEnabled(s, false) {
      l := BufStep(false);
    } else {
      l := RpcStep;
    }
  }

  // ---- Stop ----

  /** Stop has made its store and has not returned. */
  predicate StopStored(s: State) {
    s.rpc.StopStamp? || s.rpc.StopNotify? || s.rpc.StopJoin?
  }

  /** It did so for an activated Record, or there is none to wait for. */
  predicate StopUnderway(s: State) {
    StopStored(s) && (Halting(s) || s.rec.NoRecord?)
  }

  predicate NothingRuns(r: RecPc) { r.NoRecord? || r.RecFinished? }

  function StopLeft(s: State): nat
    requires ThreadInv(s)
  {
    WorkLeft(s) + match s.rpc case StopStamp => 3 case StopNotify => 2 case _ => 1
  }

  /** A worker's step leaves the RPC thread where it is; its own steps lead to the join. */
  lemma StopPointMoves(s: State, l: Label)
    requires ThreadInv(s) && StopUnderway(s) && Enabled(s, l)
    ensures var r := Next(s, l).rpc;
            if l.RpcStep? then
              if s.rpc.StopStamp? then r.StopNotify? else if s.rpc.StopNotify? then r.StopJoin? else r.Idle?
            else r == s.rpc
    ensures NothingRuns(s.rec) && l.RpcStep? && !s.rpc.StopJoin? ==> Next(s, l).rec == s.rec
  {
    match l
    case RpcStep =>
    case RecStep(io) =>
    case BufStep(timeout) =>
    case _ =>
  }

  lemma FinishedStepKeepsWork(s: State, l: Label)
    requires ThreadInv(s) && StopUnderway(s) && Enabled(s, l) && ThreadInv(Next(s, l))
    requires NothingRuns(s.rec)
    ensures Next(s, l).rpc.Idle? || (StopUnderway(Next(s, l)) && WorkLeft(Next(s, l)) == WorkLeft(s))
    ensures !IsWorkerStep(l)
  {
  }

  lemma StopStepWorks(s: State, l: Label)
    requires ThreadInv(s) && StopUnderway(s) && Enabled(s, l) && ThreadInv(Next(s, l))
    ensures Next(s, l).rpc.Idle? || StopUnderway(Next(s, l))
    ensures !Next(s, l).rpc.Idle? ==>
              if IsThreadStep(l) then StopLeft(Next(s, l)) < StopLeft(s)
              else StopLeft(Next(s, l)) <= StopLeft(s)
  {
    StopPointMoves(s, l);
    if NothingRuns(s.rec) { FinishedStepKeepsWork(s, l); } else { HaltStep(s, l); }
  }

  /** Stop returns: no run goes on for more than StopLeft thread steps without it. */
  lemma {:induction false} StopCompletes(s: State, ls: seq<Label>)
    requires Inv(s) && StopUnderway(s) && Legal(s, ls) && Count(ls, IsThreadStep) > StopLeft(s)
    ensures Visits(s, ls, HasReturned)
    decreases |ls|
  {
    var s' := Next(s, ls[0]);
    StepHolds(s, ls[0]);
    StopStepWorks(s, ls[0]);
    if s'.rpc.Idle? {
      assert Visits(s', ls[1..], HasReturned);
    } else {
      StopCompletes(s', ls[1..]);
    }
  }

  /** A called Stop that nothing can undo: Record cannot clear the flag after its store. */
  predicate StopOnCourse(s: State) {
    || StopUnderway(s)
    || (s.rpc.StopWant? && !s.rec.ActivateWant?)
    || (s.rpc.StopStore? && !s.rec.ActivateWant? && !s.rec.ActivateStore?)
  }

  /** Until such a Stop returns some thread can step, also while it waits for stop_mtx. */
  lemma StopNeverDeadlocks(s: State) returns (l: Label)
    requires Inv(s) && StopOnCourse(s)
    ensures IsThreadStep(l) && Enabled(s, l)
  {
    if s.rpc.StopWant? && !s.stopMtx.Free? {
      l := if s.stopMtx == HeldBy(RecThread) then RecStep(Quiet) else BufStep(false);
    } else if !StopStored(s) || NothingRuns(s.rec) {
      l := RpcStep;
    } else {
      l := HaltNeverDeadlocks(s);
    }
  }

  lemma OnCourseStepRec(s: State, io: RecIo)
    requires ThreadInv(s) && StopOnCourse(s) && RecEnabled(s, io)
    ensures StopOnCourse(RecNext(s, io))
  {
  }

  lemma OnCourseStep(s: State, l: Label)
    requires ThreadInv(s) && LockInv(s) && StopOnCourse(s) && Enabled(s, l)
    ensures Next(s, l).rpc.Idle? || StopOnCourse(Next(s, l))
  {
    match l
    case RecStep(io) => OnCourseStepRec(s, io);
    case BufStep(timeout) =>
    case RpcStep =>
    case _ =>
  }

  /** Over every run such a Stop returns or stays on course; when the RPC thread has made
      its store, StopCompletes applies. */
  lemma {:induction false} StopStaysOnCourse(s: State, ls: seq<Label>)
    requires Inv(s) && StopOnCourse(s) && Legal(s, ls)
    ensures Visits(s, ls, HasReturned)
         || (StopOnCourse(After(s, ls)) && (StopStored(After(s, ls)) ==> StopUnderway(After(s, ls))))
    decreases |ls|
  {
    if ls == [] {
    } else {
      var s' := Next(s, ls[0]);
      StepHolds(s, ls[0]);
      OnCourseStep(s, ls[0]);
      if s'.rpc.Idle? {
        assert Visits(s', ls[1..], HasReturned);
      } else {
        StopStaysOnCourse(s', ls[1..]);
      }
    }
  }

  /** A Stop called while isActive() is on course. */
  lemma ActiveStopIsOnCourse(s: State)
    requires Inv(s) && s.rpc.Idle? && !s.stop
    ensures StopOnCourse(Next(s, CallStop))
  {
  }

  /** While such a Stop waits, processBuffer does not sleep: its notification is not missed. */
  predicate NobodySleeps(s: State) {
    StopOnCourse(s) && (s.rpc.StopJoin? ==> !s.buf.Waiting?)
  }

  lemma NobodySleepsStep(s: State, l: Label)
    requires ThreadInv(s) && LockInv(s) && NobodySleeps(s) && Enabled(s, l)
    ensures Next(s, l).rpc.Idle? || NobodySleeps(Next(s, l))
  {
    OnCourseStep(s, l);
    match l
    case RecStep(io) =>
    case BufStep(timeout) =>
    case RpcStep =>
    case _ =>
  }

  lemma {:induction false} NotificationIsNotMissed(s: State, ls: seq<Label>)
    requires Inv(s) && NobodySleeps(s) && Legal(s, ls)
    ensures Visits(s, ls, HasReturned) || NobodySleeps(After(s, ls))
    decreases |ls|
  {
    if ls == [] {
    } else {
      var s' := Next(s, ls[0]);
      StepHolds(s, ls[0]);
      NobodySleepsStep(s, ls[0]);
      if s'.rpc.Idle? {
        assert Visits(s', ls[1..], HasReturned);
      } else {
        NotificationIsNotMissed(s', ls[1..]);
      }
    }
  }

  // ---- A lost Stop ----

  /** Record clears the flag after Stop has set it, or has yet to do so: Stop waits for a
      thread that nobody tells to stop. */
  predicate StopLost(s: State) {
    s.cfg.continuous && StopStored(s) &&
    (|| s.rec.ActivateWant?
     || (s.rec.ActivateStore? && !s.rpc.StopStamp?)
     || (&& !s.stop && !s.rpc.StopStamp? && Activated(s.rec) && !s.rec.RecFinished?
         && !InEscape(s.rec) && !PastLoop(s.buf)))
  }

  predicate InEscape(r: RecPc) {
    r.EscWant? || r.EscStore? || r.EscStamp?
  }

  predicate ReadsEscape(l: Label) {
    l.RecStep? && l.io.Input? && IsEscape(l.io.ev)
  }

  lemma LostStepRec(s: State, io: RecIo)
    requires ThreadInv(s) && LockInv(s) && StopLost(s) && RecEnabled(s, io) && !ReadsEscape(RecStep(io))
    ensures StopLost(RecNext(s, io))
  {
  }

  lemma LostStep(s: State, l: Label)
    requires ThreadInv(s) && LockInv(s) && StopLost(s) && Enabled(s, l) && !ReadsEscape(l)
    ensures StopLost(Next(s, l))
  {
    match l
    case RecStep(io) => LostStepRec(s, io);
    case BufStep(timeout) =>
    case RpcStep =>
    case _ =>
  }

  /** A lost Stop never returns, however long the run, unless someone presses ESC. */
  lemma {:induction false} LostStopNeverReturns(s: State, ls: seq<Label>)
    requires Inv(s) && StopLost(s) && Legal(s, ls) && Count(ls, ReadsEscape) == 0
    ensures StopLost(After(s, ls)) && !Visits(s, ls, HasReturned)
    decreases |ls|
  {
    if ls == [] {
    } else {
      StepHolds(s, ls[0]);
      LostStep(s, ls[0]);
      LostStopNeverReturns(Next(s, ls[0]), ls[1..]);
    }
  }

  /** A run goes on with one more step. */
  lemma {:induction false} Extend(s: State, ls: seq<Label>, t: State, l: Label) returns (ls': seq<Label>, t': State)
    requires ValidConfig(s.cfg) && Legal(s, ls) && After(s, ls) == t && Enabled(t, l)
    ensures ls' == ls + [l] && Legal(s, ls') && After(s, ls') == t' && ValidConfig(t.cfg) && t' == Next(t, l)
    decreases |ls|
  {
    ls' := ls + [l];
    if ls == [] {
      t' := Next(t, l);
      ConfigIsFixed(s, l);
      assert ls' == [l] && Legal(t', []);
    } else {
      ConfigIsFixed(s, ls[0]);
      var rest;
      rest, t' := Extend(Next(s, ls[0]), ls[1..], t, l);
      assert ls'[1..] == rest;
    }
  }

  /** Two runs one after the other. */
  lemma {:induction false} Joined(s: State, a: seq<Label>, t: State, b: seq<Label>)
    requires ValidConfig(s.cfg) && Legal(s, a) && After(s, a) == t && ValidConfig(t.cfg) && Legal(t, b)
    ensures Legal(s, a + b) && After(s, a + b) == After(t, b)
    decreases |a|
  {
    if a == [] {
      assert a + b == b;
    } else {
      ConfigIsFixed(s, a[0]);
      Joined(Next(s, a[0]), a[1..], t, b);
      assert (a + b)[1..] == a[1..] + b;
    }
  }

  /** Start on an empty slot, run without interruption. */
  lemma StartedRun(s: State) returns (ls: seq<Label>, t: State)
    requires Inv(s) && s.rpc.Idle? && !s.joinable && s.stop
    ensures Legal(s, ls) && After(s, ls) == t && t == s.(joinable := true, rec := ActivateWant)
  {
    ls, t := Extend(s, [], s, CallStart);
    ls, t := Extend(s, ls, t, RpcStep);
    ls, t := Extend(s, ls, t, RpcStep);
    ls, t := Extend(s, ls, t, RpcStep);
  }

  /** Whenever the slot is empty and the flag is set, a Start followed at once by a Stop can
      end in a lost Stop, which waits although the flag was set. */
  lemma StopCanBeLost(s: State) returns (ls: seq<Label>)
    requires Inv(s) && s.cfg.continuous && s.rpc.Idle? && !s.joinable && s.stop
    ensures Legal(s, ls)
    ensures var t := After(s, ls); StopLost(t) && t.rpc.StopJoin? && t.stop && t.joinable
  {
    var t;
    ls, t := StartedRun(s);
    ls, t := Extend(s, ls, t, CallStop);
    ls, t := Extend(s, ls, t, RpcStep);
    ls, t := Extend(s, ls, t, RpcStep);
    ls, t := Extend(s, ls, t, RpcStep);
    ls, t := Extend(s, ls, t, RpcStep);
  }

  /** This call of Stop, not yet returned from, can be lost. */
  ghost predicate CallCanBeLost(s: State)
    requires ValidConfig(s.cfg)
  {
    exists ls :: Legal(s, ls) && !Visits(s, ls, HasReturned) && StopLost(After(s, ls))
  }

  /** The exact condition at the call: a Stop can be lost if and only if Record has been
      started and has not yet locked stop_mtx to activate. */
  lemma StopCanBeLostIff(s: State)
    requires Inv(s) && s.cfg.continuous && s.rpc.Idle?
    ensures CallCanBeLost(Next(s, CallStop)) <==> s.rec.ActivateWant?
  {
    var c := Next(s, CallStop);
    StepHolds(s, CallStop);
    if s.rec.ActivateWant? {
      OvertakenRun(c);
    } else {
      forall ls | Legal(c, ls) && !Visits(c, ls, HasReturned) ensures !StopLost(After(c, ls)) {
        StopStaysOnCourse(c, ls);
      }
    }
  }

  /** Stop's store comes before Record has locked stop_mtx. */
  lemma OvertakenRun(s: State)
    requires Inv(s) && s.cfg.continuous && s.rpc.StopWant? && s.rec.ActivateWant?
    ensures CallCanBeLost(s)
  {
    var t := Next(s, RpcStep);
    var u := Next(t, RpcStep);
    var ls := [RpcStep, RpcStep];
    assert ls[1..] == [RpcStep] && ls[1..][1..] == [];
    assert Legal(u, []) && After(u, []) == u && !Visits(u, [], HasReturned);
    assert Legal(t, ls[1..]) && After(t, ls[1..]) == u && !Visits(t, ls[1..], HasReturned);
    assert Legal(s, ls) && After(s, ls) == u && !Visits(s, ls, HasReturned);
  }

  /** Record has read an ESC and is about to set the flag. */
  predicate EscapeComing(r: RecPc) { r.EscWant? || r.EscStore? }

  /** While Stop waits in continuous mode its fate is decided.  If there is no thread, or
      the flag is set for an activated one, it returns within StopLeft thread steps; if an
      ESC has been read, two steps of Record lead there; in every other case no run without
      another ESC returns. */
  lemma WaitingStopReturnsIff(s: State)
    requires Reachable(s) && s.cfg.continuous && s.rpc.StopJoin?
    ensures ThreadInv(s)
    ensures s.rec.NoRecord? || Halting(s) ==>
              forall ls | Legal(s, ls) && Count(ls, IsThreadStep) > StopLeft(s) :: Visits(s, ls, HasReturned)
    ensures !s.stop && EscapeComing(s.rec) ==>
              forall ls | Legal(s, ls) && Count(ls, IsRecordStep) >= 2 :: Visits(s, ls, StopUnderway)
    ensures !(s.rec.NoRecord? || Halting(s) || EscapeComing(s.rec)) ==>
              forall ls | Legal(s, ls) && Count(ls, ReadsEscape) == 0 :: !Visits(s, ls, HasReturned)
  {
    ReachableHolds(s);
    forall ls | Legal(s, ls) && Count(ls, IsThreadStep) > StopLeft(s) && StopUnderway(s)
      ensures Visits(s, ls, HasReturned)
    {
      StopCompletes(s, ls);
    }
    forall ls | Legal(s, ls) && Count(ls, IsRecordStep) >= 2 && EscapeComing(s.rec)
      ensures Visits(s, ls, StopUnderway)
    {
      EscapeSetsFlag(s, ls);
    }
    forall ls | Legal(s, ls) && Count(ls, ReadsEscape) == 0 && StopLost(s)
      ensures !Visits(s, ls, HasReturned)
    {
      LostStopNeverReturns(s, ls);
    }
  }

  lemma {:induction false} EscapeSetsFlag(s: State, ls: seq<Label>)
    requires Inv(s) && s.rpc.StopJoin? && EscapeComing(s.rec) && Legal(s, ls)
    requires Count(ls, IsRecordStep) >= if s.rec.EscWant? then 2 else 1
    ensures Visits(s, ls, StopUnderway)
    decreases |ls|
  {
    var s' := Next(s, ls[0]);
    StepHolds(s, ls[0]);
    EscapeStep(s, ls[0]);
    if StopUnderway(s') {
      assert Visits(s', ls[1..], StopUnderway);
    } else {
      EscapeSetsFlag(s', ls[1..]);
    }
  }

  lemma EscapeStep(s: State, l: Label)
    requires ThreadInv(s) && s.rpc.StopJoin? && EscapeComing(s.rec) && Enabled(s, l)
    ensures var s' := Next(s, l);
            && s'.rpc == s.rpc
            && (!l.RecStep? ==> s'.rec == s.rec)
            && (l.RecStep? && s.rec.EscWant? ==> s'.rec.EscStore?)
            && (l.RecStep? && s.rec.EscStore? ==> StopUnderway(s'))
  {
    match l
    case RecStep(io) =>
    case BufStep(timeout) =>
    case RpcStep =>
    case _ =>
  }

  // ---- Fixed length: the deadline ends the recording whatever happened to the flag ----

  predicate Expired(s: State) {
    !s.cfg.continuous && Stamped(s.rec) && s.clock >= s.startTime + s.cfg.length
  }

  /** Steps Record has left once the deadline has passed. */
  function DeadlineRank(s: State): nat
    requires ThreadInv(s)
  {
    var n := |s.cfg.available|;
    match s.rec
    case RecFinished => 0
    case TimedHeld(t) => if t - s.startTime >= s.cfg.length then 1 else 7 + 5 * n
    case TimedWant(t) => if t - s.startTime >= s.cfg.length then 2 else 8 + 5 * n
    case TimedRead => 3
    case LoopTop => 4
    case Setup => 5
    case SpawnBuffer => 6
    case Round(i) => 5 + 5 * (n - i)
    case EscWant(i) => 4 + 5 * (n - i)
    case EscStore(i) => 3 + 5 * (n - i)
    case EscStamp(i) => 2 + 5 * (n - i)
    case Select => 6 + 5 * n
    case _ => 0
  }

  lemma DeadlineStepRec(s: State, io: RecIo)
    requires ThreadInv(s) && Expired(s) && RecEnabled(s, io) && ThreadInv(RecNext(s, io))
    ensures Expired(RecNext(s, io)) && DeadlineRank(RecNext(s, io)) < DeadlineRank(s)
  {
  }

  lemma DeadlineStepOther(s: State, l: Label)
    requires ThreadInv(s) && Expired(s) && !s.rec.RecFinished? && Enabled(s, l) && !l.RecStep?
    ensures Expired(Next(s, l)) && Next(s, l).rec == s.rec
    ensures Next(s, l).startTime == s.startTime && Next(s, l).cfg == s.cfg
  {
  }

  /** Past the deadline Record ends within DeadlineRank of its own steps, even if a Stop
      was lost: the flag is not needed. */
  lemma {:induction false} DeadlineEndsRecording(s: State, ls: seq<Label>)
    requires Inv(s) && Expired(s) && Legal(s, ls) && Count(ls, IsRecordStep) > DeadlineRank(s)
    ensures Visits(s, ls, RecordHasEnded)
    decreases |ls|
  {
    if s.rec.RecFinished? {
    } else {
      StepHolds(s, ls[0]);
      if ls[0].RecStep? { DeadlineStepRec(s, ls[0].io); } else { DeadlineStepOther(s, ls[0]); }
      DeadlineEndsRecording(Next(s, ls[0]), ls[1..]);
    }
  }

  /** Until then some thread can step, and once Record has ended a waiting Stop returns. */
  lemma DeadlineNeverDeadlocks(s: State) returns (l: Label)
    requires Inv(s) && Expired(s) && !s.rpc.Terminated?
    requires s.rec.RecFinished? ==> s.rpc.StopJoin?
    ensures IsThreadStep(l) && Enabled(s, l)
    ensures s.rec.RecFinished? ==> Next(s, l).rpc.Idle? && !Next(s, l).joinable
  {
    if RecEnabled(s, Quiet) { l := RecStep(Quiet); } else { l := RpcStep; }
  }
}
