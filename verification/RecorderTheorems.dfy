// Safety of the recorder over every run, whatever the interleaving.
module RecorderTheorems {
  import opened InputEvents
  import opened RecorderProtocol
  import opened RecorderSafety
  import opened RollingWindow
  import opened FixedLength
  import DeviceMask

  ghost predicate Inv(s: State) {
    && ThreadInv(s) && LockInv(s) && RecordInv(s) && TimeInv(s)
    && WindowInv(s) && DumpInv(s) && FileInv(s) && StopTimeInv(s) && SourceInv(s)
    && PassTimeInv(s) && StampInv(s) && DumpCountInv(s)
  }

  lemma InitHolds(cfg: Config, now: nat)
    requires ValidConfig(cfg)
    ensures Inv(Init(cfg, now))
  {
  }

  lemma StepHolds(s: State, l: Label)
    requires Inv(s) && Enabled(s, l)
    ensures Inv(Next(s, l))
  {
    ThreadStep(s, l);
    LockStep(s, l);
    RecordStep(s, l);
    TimeStep(s, l);
    WindowStep(s, l);
    DumpStep(s, l);
    FileStep(s, l);
    StopTimeStep(s, l);
    SourceStep(s, l);
    PassTimeStep(s, l);
    StampStep(s, l);
    DumpCountStep(s, l);
  }

  lemma {:induction false} RunHolds(s: State, ls: seq<Label>)
    requires Inv(s) && Legal(s, ls)
    ensures Inv(After(s, ls))
    decreases |ls|
  {
    if ls == [] {
    } else {
      StepHolds(s, ls[0]);
      RunHolds(Next(s, ls[0]), ls[1..]);
    }
  }

  lemma ReachableHolds(s: State)
    requires Reachable(s)
    ensures Inv(s)
  {
    var cfg, now: nat, ls :|
      ValidConfig(cfg) && Legal(Init(cfg, now), ls) && After(Init(cfg, now), ls) == s;
    InitHolds(cfg, now);
    RunHolds(Init(cfg, now), ls);
  }

  lemma DumpsAreSound(s: State, k: nat)
    requires Reachable(s) && k < |s.log.dumps|
    ensures DumpSound(s.log.dumps[k], s.log, s.cfg.length)
  {
    ReachableHolds(s);
  }

  lemma TimesAreNatural(s: State, i: nat)
    requires Reachable(s) && i < |s.log.hist|
    ensures s.log.hist[i].tsAbs >= 0
  {
    ReachableHolds(s);
    assert s.log.hist[i] == Seen(s)[i];
  }

  // ---- Conservation and the exact window ----

  /** Nothing is lost or invented: history is the popped records, then the buffer. */
  lemma Conservation(s: State)
    requires Reachable(s)
    ensures s.log.evicted <= |s.log.hist|
    ensures s.log.hist == s.log.hist[..s.log.evicted] + s.mem.inputBuf
    ensures Sorted(s.log.hist)
  {
    ReachableHolds(s);
    forall i, j | 0 <= i < j < |s.log.hist| ensures s.log.hist[i].tsAbs <= s.log.hist[j].tsAbs {
      assert Seen(s)[i] == s.log.hist[i] && Seen(s)[j] == s.log.hist[j];
    }
  }

  /** The first index below n whose time stamp is at least c, or n. */
  function FirstAtLeast(h: seq<InputRecord>, i: nat, n: nat, c: int): (k: nat)
    requires i <= n <= |h|
    ensures i <= k <= n
    ensures forall j :: i <= j < k ==> h[j].tsAbs < c
    ensures k < n ==> h[k].tsAbs >= c
    decreases n - i
  {
    if i < n && h[i].tsAbs < c then FirstAtLeast(h, i + 1, n, c) else i
  }

  /** Where the window begins after one pass over the first p.len records. */
  function PassStart(p: Pass, h: seq<InputRecord>): nat
    requires p.len <= |h|
  {
    var byTime := FirstAtLeast(h, 0, p.len, p.cutoff);
    if p.capped && p.len > byTime + FILE_MAX_LINES then p.len - FILE_MAX_LINES else byTime
  }

  /** The latest beginning any of the passes asks for. */
  function WindowStart(ps: seq<Pass>, h: seq<InputRecord>): nat
    requires forall k :: 0 <= k < |ps| ==> ps[k].len <= |h|
  {
    if ps == [] then 0
    else
      var before := WindowStart(ps[..|ps| - 1], h);
      var here := PassStart(ps[|ps| - 1], h);
      if here > before then here else before
  }

  lemma PassStartIsExact(p: Pass, h: seq<InputRecord>, i: nat)
    requires Sorted(h) && p.len <= |h|
    ensures Condemns(p, h, i) <==> i < PassStart(p, h)
  {
    var k := FirstAtLeast(h, 0, p.len, p.cutoff);
    if k < i < p.len { assert h[k].tsAbs <= h[i].tsAbs; }
  }

  lemma {:induction false} WindowStartIsExact(ps: seq<Pass>, h: seq<InputRecord>, i: nat)
    requires Sorted(h) && forall k :: 0 <= k < |ps| ==> ps[k].len <= |h|
    ensures CondemnedBy(ps, h, i) <==> i < WindowStart(ps, h)
  {
    if ps == [] {
    } else {
      var n := |ps| - 1;
      WindowStartIsExact(ps[..n], h, i);
      PassStartIsExact(ps[n], h, i);
      CondemnedAppend(ps[..n], ps[n], h, i);
      assert ps[..n] + [ps[n]] == ps;
    }
  }

  /** Every dump of every run, over any number of sessions, is the history from the
      latest start demanded by the trim passes so far up to the dump; each pass demands
      the window's length before an instant not later than the clock. */
  lemma DumpIsExactWindow(s: State, k: nat)
    requires Reachable(s) && k < |s.log.dumps|
    ensures var d, g := s.log.dumps[k], s.log;
            && 0 < d.passes <= |g.passes| && d.end <= |g.hist|
            && (forall j :: 0 <= j < d.passes ==> g.passes[j].len <= |g.hist|)
            && d.first == WindowStart(g.passes[..d.passes], g.hist)
            && (forall j :: 0 <= j < d.passes ==>
                  g.passes[j].cutoff == g.passes[j].at - s.cfg.length && g.passes[j].at <= s.clock)
            && g.passes[d.passes - 1].at == d.stopRead
            && d.first <= d.end
            && d.body == g.hist[d.first..d.end]
  {
    ReachableHolds(s);
    Conservation(s);
    var d, g := s.log.dumps[k], s.log;
    assert DumpSound(d, g, s.cfg.length);
    var ps := g.passes[..d.passes];
    var a := WindowStart(ps, g.hist);
    WindowStartIsExact(ps, g.hist, a);
    WindowStartIsExact(ps, g.hist, d.first);
  }

  /** A dump keeps precisely the records that none of the passes so far condemned. */
  lemma DumpKeepsTheSurvivors(s: State, k: nat, i: nat)
    requires Reachable(s) && k < |s.log.dumps| && i < s.log.dumps[k].end
    ensures var d := s.log.dumps[k];
            && d.passes <= |s.log.passes|
            && (i >= d.first <==> !CondemnedBy(s.log.passes[..d.passes], s.log.hist, i))
  {
    ReachableHolds(s);
    assert DumpSound(s.log.dumps[k], s.log, s.cfg.length);
  }

  /** Successive dumps are intervals of the history that only move forward. */
  lemma DumpsMoveForward(s: State, j: nat, k: nat)
    requires Reachable(s) && j < k < |s.log.dumps|
    ensures var c, d := s.log.dumps[j], s.log.dumps[k];
            && c.first <= d.first <= d.end <= |s.log.hist| && c.end <= d.end
            && c.first <= c.end
            && c.body == s.log.hist[c.first..c.end] && d.body == s.log.hist[d.first..d.end]
  {
    ReachableHolds(s);
    assert DumpSound(s.log.dumps[j], s.log, s.cfg.length);
    assert DumpSound(s.log.dumps[k], s.log, s.cfg.length);
  }

  /** Dumping removes nothing: until the next trim the buffer is the whole dump followed
      by whatever was pushed since. */
  lemma NothingLostUntilNextTrim(s: State, k: nat)
    requires Reachable(s) && k < |s.log.dumps|
    requires |s.log.passes| == s.log.dumps[k].passes && CurrentPass(s) == []
    ensures s.log.dumps[k].end <= |s.log.hist|
    ensures s.mem.inputBuf == s.log.dumps[k].body + s.log.hist[s.log.dumps[k].end..]
  {
    ReachableHolds(s);
    var d, g := s.log.dumps[k], s.log;
    assert DumpSound(d, g, s.cfg.length);
    assert g.passes[..d.passes] == g.passes == g.passes + [];
    assert d.first == 0 || CondemnedBy(g.passes[..d.passes], g.hist, d.first - 1);
    assert g.evicted == 0 || CondemnedBy(g.passes + CurrentPass(s), g.hist, g.evicted - 1);
    assert d.first == g.evicted;
    assert g.hist[d.first..] == g.hist[d.first..d.end] + g.hist[d.end..];
  }

  /** No record is popped but by a pass at some past instant for which it was older than
      the window's length, or which found FILE_MAX_LINES newer ones behind it. */
  lemma EvictionIsJustified(s: State, i: nat)
    requires Reachable(s) && i < s.log.evicted
    ensures i < |s.log.hist|
    ensures exists p :: p in s.log.passes + CurrentPass(s) && i < p.len <= |s.log.hist|
              && p.at <= s.clock
              && (s.log.hist[i].tsAbs < p.at - s.cfg.length || (p.capped && p.len - i > FILE_MAX_LINES))
  {
    ReachableHolds(s);
    var ps := s.log.passes + CurrentPass(s);
    assert CondemnedBy(ps, s.log.hist, i);
    var k :| 0 <= k < |ps| && Condemns(ps[k], s.log.hist, i);
    assert ps[k] in ps;
  }

  /** What a completed periodic pass leaves: at most FILE_MAX_LINES records, none older
      than the window when the clock was read. */
  lemma PeriodicPassBounds(s: State)
    requires Reachable(s) && s.buf.TrimHeld? && !PeriodicPops(s.mem.inputBuf, s.buf.cutoff)
    ensures |s.mem.inputBuf| <= FILE_MAX_LINES
    ensures s.log.trimAt <= s.clock
    ensures forall r :: r in s.mem.inputBuf ==> r.tsAbs >= s.log.trimAt - s.cfg.length
  {
    ReachableHolds(s);
    var p := CurrentPass(s)[0];
    forall r | r in s.mem.inputBuf ensures r.tsAbs >= s.buf.cutoff {
      var j :| 0 <= j < |s.mem.inputBuf| && s.mem.inputBuf[j] == r;
      var i := s.log.evicted + j;
      if Condemns(p, s.log.hist, i) { LoopExitLeavesNothingCondemned(s, p, i); }
    }
  }

  /** processBuffer is in the body of its loop. */
  predicate InTurn(b: BufPc) {
    b.WaitWant? || b.WaitHeld? || b.Waiting? || b.TimeoutWant? || b.TimeoutHeld?
    || b.TrimClock? || b.TrimWant? || b.TrimHeld?
  }

  predicate BeginsTurn(s: State, l: Label) { l.BufStep? && s.buf.BufLoopTop? && !s.stop }

  /** How often the run enters the loop body. */
  ghost function TurnsBegun(s: State, ls: seq<Label>): nat
    requires ValidConfig(s.cfg) && Legal(s, ls)
    decreases |ls|
  {
    if ls == [] then 0
    else
      ConfigIsFixed(s, ls[0]);
      (if BeginsTurn(s, ls[0]) then 1 else 0) + TurnsBegun(Next(s, ls[0]), ls[1..])
  }

  function PeriodicPasses(ps: seq<Pass>): nat {
    if ps == [] then 0 else PeriodicPasses(ps[..|ps| - 1]) + if ps[|ps| - 1].capped then 1 else 0
  }

  /** Periodic passes made, the one of the turn under way included. */
  function PassesDue(s: State): nat {
    PeriodicPasses(s.log.passes) + if InTurn(s.buf) then 1 else 0
  }

  lemma TurnStep(s: State, l: Label)
    requires ThreadInv(s) && Enabled(s, l)
    ensures PassesDue(Next(s, l)) == PassesDue(s) + if BeginsTurn(s, l) then 1 else 0
  {
    match l
    case RecStep(io) => TurnStepRec(s, io);
    case BufStep(timeout) => TurnStepBuf(s, timeout);
    case RpcStep =>
    case _ =>
  }

  lemma TurnStepRec(s: State, io: RecIo)
    requires ThreadInv(s) && RecEnabled(s, io)
    ensures PassesDue(RecNext(s, io)) == PassesDue(s)
  {
  }

  lemma TurnStepBuf(s: State, timeout: bool)
    requires ThreadInv(s) && BufEnabled(s, timeout)
    ensures PassesDue(BufNext(s, timeout)) == PassesDue(s) + if BeginsTurn(s, BufStep(timeout)) then 1 else 0
  {
    var s' := BufNext(s, timeout);
    if s'.log.passes != s.log.passes {
      assert s'.log.passes[..|s'.log.passes| - 1] == s.log.passes;
    }
  }

  /** Over every run, each turn of processBuffer's loop makes exactly one periodic pass,
      whether its wait timed out or was cut short by a stop. */
  lemma {:induction false} TurnsMakePasses(s: State, ls: seq<Label>)
    requires Inv(s) && Legal(s, ls)
    ensures PassesDue(After(s, ls)) == PassesDue(s) + TurnsBegun(s, ls)
    decreases |ls|
  {
    if ls == [] {
    } else {
      StepHolds(s, ls[0]);
      TurnStep(s, ls[0]);
      ConfigIsFixed(s, ls[0]);
      TurnsMakePasses(Next(s, ls[0]), ls[1..]);
    }
  }

  // ---- The header ----

  /** When both reads of m_stop_time agree, the header is the later of the session's
      start and the beginning of the window. */
  lemma HeaderIsLaterInstant(s: State, k: nat)
    requires Reachable(s) && k < |s.log.dumps|
    requires s.log.dumps[k].stopRead == s.log.dumps[k].stopReadAgain
    ensures var d := s.log.dumps[k]; var from := d.stopRead - s.cfg.length;
            d.header == if from > d.startTime then from else d.startTime
  {
    ReachableHolds(s);
    assert DumpSound(s.log.dumps[k], s.log, s.cfg.length);
  }

  /** What a dump keeps is not older than its final cutoff. */
  lemma FinalPassSpares(d: Dump, g: Log, length: int, i: nat)
    requires DumpSound(d, g, length) && d.first <= i < d.end
    ensures g.hist[i].tsAbs >= d.stopRead - length
  {
    var ps := g.passes[..d.passes];
    assert ps[d.passes - 1] == FinalPass(d.stopRead, length, d.end);
    assert !CondemnedBy(ps, g.hist, i);
    assert !Condemns(ps[d.passes - 1], g.hist, i);
  }

  /** The header is no later than any dumped record exactly when the session lasted the
      whole window, by the second read of m_stop_time, or the oldest record kept is not older
      than the session. */
  lemma HeaderBoundsIff(s: State, k: nat)
    requires Reachable(s) && k < |s.log.dumps|
    ensures var d := s.log.dumps[k];
            (forall r :: r in d.body ==> d.header <= r.tsAbs)
            <==> (d.stopReadAgain - d.startTime >= s.cfg.length || d.body == []
                  || d.body[0].tsAbs >= d.startTime)
  {
    ReachableHolds(s);
    Conservation(s);
    var d, g := s.log.dumps[k], s.log;
    assert DumpSound(d, g, s.cfg.length);
    forall r | r in d.body
      ensures r.tsAbs >= d.stopRead - s.cfg.length && r.tsAbs >= d.body[0].tsAbs
    {
      var j :| 0 <= j < |d.body| && d.body[j] == r;
      FinalPassSpares(d, g, s.cfg.length, d.first + j);
      assert d.body[0] == g.hist[d.first] && r == g.hist[d.first + j];
    }
    if d.body != [] { assert d.body[0] in d.body; }
  }

  /** A record of an earlier session, older than this one, inside the final window and
      still in the buffer when the dump's final pass begins. */
  ghost predicate CarriedOver(d: Dump, g: Log, length: int, i: nat)
    requires DumpSound(d, g, length)
  {
    && i < d.base && d.stopRead - length <= g.hist[i].tsAbs < d.startTime
    && !CondemnedBy(g.passes[..d.passes - 1], g.hist, i)
  }

  /** The same condition before the final pass has run: the header is no later than any
      dumped record exactly when the session lasted the whole window or nothing is carried
      over from an earlier one. */
  lemma HeaderBoundsIffNothingCarriedOver(s: State, k: nat)
    requires Reachable(s) && k < |s.log.dumps|
    ensures var d := s.log.dumps[k];
            && DumpSound(d, s.log, s.cfg.length)
            && ((forall r :: r in d.body ==> d.header <= r.tsAbs)
                <==> (|| d.stopReadAgain - d.startTime >= s.cfg.length
                      || forall i: nat :: !CarriedOver(d, s.log, s.cfg.length, i)))
  {
    ReachableHolds(s);
    var d, g := s.log.dumps[k], s.log;
    assert DumpSound(d, g, s.cfg.length);
    HeaderBoundsIff(s, k);
    if d.stopReadAgain - d.startTime < s.cfg.length {
      CarriedOverIff(d, g, s.cfg.length);
    }
  }

  /** In a short session the records carried over are those before the header. */
  lemma CarriedOverIff(d: Dump, g: Log, length: int)
    requires DumpSound(d, g, length) && d.stopReadAgain - d.startTime < length
    ensures (forall r :: r in d.body ==> d.header <= r.tsAbs) <==> (forall i: nat :: !CarriedOver(d, g, length, i))
  {
    forall i: nat | i < d.end
      ensures CarriedOver(d, g, length, i) <==> d.first <= i && g.hist[i].tsAbs < d.header
    {
      CarriedOverIsTooEarly(d, g, length, i);
    }
    forall r | r in d.body
      ensures exists i: nat :: d.first <= i < d.end && g.hist[i] == r
    {
      var j :| 0 <= j < |d.body| && d.body[j] == r;
      assert g.hist[d.first + j] == r;
    }
    forall i | d.first <= i < d.end ensures g.hist[i] in d.body {
      assert d.body[i - d.first] == g.hist[i];
    }
  }

  lemma CarriedOverIsTooEarly(d: Dump, g: Log, length: int, i: nat)
    requires DumpSound(d, g, length) && d.stopReadAgain - d.startTime < length && i < d.end
    ensures CarriedOver(d, g, length, i) <==> d.first <= i && g.hist[i].tsAbs < d.header
  {
    var before, all := g.passes[..d.passes - 1], g.passes[..d.passes];
    assert all == before + [g.passes[d.passes - 1]];
    assert CondemnedBy(all, g.hist, i) <==>
      CondemnedBy(before, g.hist, i) || g.hist[i].tsAbs < d.stopRead - length by {
      assert Condemns(all[d.passes - 1], g.hist, i) <==> g.hist[i].tsAbs < d.stopRead - length;
      forall m | 0 <= m < |before| ensures before[m] == all[m] {}
      if CondemnedBy(before, g.hist, i) {
        var m :| 0 <= m < |before| && Condemns(before[m], g.hist, i);
        assert Condemns(all[m], g.hist, i);
      }
    }
  }

  /** On a recorder's first session it always is. */
  lemma FirstSessionHeaderBounds(s: State, k: nat, r: InputRecord)
    requires Reachable(s) && k < |s.log.dumps| && s.log.dumps[k].session == 1
    requires r in s.log.dumps[k].body
    ensures s.log.dumps[k].header <= r.tsAbs
  {
    HeaderBoundsIff(s, k);
    ReachableHolds(s);
    var d := s.log.dumps[k];
    assert DumpSound(d, s.log, s.cfg.length);
    assert d.body[0] == s.log.hist[d.first];
  }

  /** A header lies before the epoch exactly when the second read of m_stop_time says that
      the session lasted the window and the first one lay within the window of the epoch;
      the two reads then differ. */
  lemma HeaderIsNegativeIff(s: State, k: nat)
    requires Reachable(s) && k < |s.log.dumps|
    ensures var d := s.log.dumps[k];
            && (d.header < 0 <==> d.stopReadAgain - d.startTime >= s.cfg.length && d.stopRead < s.cfg.length)
            && (d.header < 0 ==> d.stopRead != d.stopReadAgain)
  {
    ReachableHolds(s);
    assert DumpSound(s.log.dumps[k], s.log, s.cfg.length);
  }

  /** m_stop_time is the time of the stop: nothing read before it was written is younger,
      nothing read since is older. */
  lemma StopTimeSplitsHistory(s: State)
    requires Reachable(s)
    ensures s.log.stamped <= |Seen(s)|
    ensures forall i :: 0 <= i < s.log.stamped ==> Seen(s)[i].tsAbs <= s.stopTime
    ensures forall i :: s.log.stamped <= i < |Seen(s)| ==> s.stopTime <= Seen(s)[i].tsAbs
  {
    ReachableHolds(s);
  }

  /** Every session of a continuous recorder that is over has written one dump. */
  lemma OneDumpPerSession(s: State)
    requires Reachable(s) && s.cfg.continuous && NoSession(s.rec)
    ensures |s.log.dumps| == s.log.sessions
  {
    ReachableHolds(s);
  }

  predicate NoSession(r: RecPc) { !Stamped(r) || r.RecFinished? }

  // ---- Fixed length ----

  /** The lines of a fixed-length file are in order and not before the start; those at or
      after the deadline all come from the last round, one per device at most. */
  lemma OvershootIsOneRound(s: State)
    requires Reachable(s) && FileCurrent(s)
    ensures Sorted(s.mem.file) && AllWithin(s.mem.file, s.startTime, s.clock)
    ensures s.log.roundStart <= |s.mem.file|
    ensures |s.mem.file[s.log.roundStart..]| <= |s.mem.devs|
    ensures forall i :: 0 <= i < |s.mem.file| && s.mem.file[i].tsAbs >= s.startTime + s.cfg.length
                        ==> i >= s.log.roundStart
  {
    ReachableHolds(s);
    forall i | 0 <= i < s.log.roundStart
      ensures s.mem.file[i].tsAbs < s.startTime + s.cfg.length
    {
      assert s.mem.file[..s.log.roundStart][i] == s.mem.file[i];
    }
  }

  // ---- Threads, locks, flag ----

  /** No thread ever holds both mutexes, and a mutex has one holder. */
  lemma LocksDoNotNest(s: State, t: ThreadId, u: ThreadId)
    requires Reachable(s)
    ensures !(HoldsStop(s, t) && HoldsBuf(s, t))
    ensures HoldsStop(s, t) && HoldsStop(s, u) ==> t == u
    ensures HoldsBuf(s, t) && HoldsBuf(s, u) ==> t == u
  {
    ReachableHolds(s);
  }

  /** Starting a thread never replaces one that exists: one Record, one processBuffer. */
  lemma SpawnsAreFresh(s: State)
    requires Reachable(s)
    ensures s.rpc.StartSpawn? && RpcNext(s).rpc.Idle? ==> s.rec.NoRecord? && s.buf.NoBuffer?
    ensures s.rec.SpawnBuffer? ==> s.buf.NoBuffer?
    ensures s.rec.NoRecord? || s.rec.RecFinished? ==> s.buf.NoBuffer?
  {
    ReachableHolds(s);
  }

  /** What is in the file, the buffer or a dump is never an ESC key event, and always of
      the kind of a device of this recorder. */
  lemma OnlyRecordableIsRecorded(s: State, r: InputRecord)
    requires Reachable(s)
    requires r in s.mem.file || r in s.mem.inputBuf || exists k :: 0 <= k < |s.log.dumps| && r in s.log.dumps[k].body
    ensures !IsEscape(r.event) && DeliveredBy(s.cfg.available, r)
  {
    ReachableHolds(s);
    assert Recordable(s.cfg, r) by {
      if !(r in s.mem.file || r in s.mem.inputBuf) {
        var k :| 0 <= k < |s.log.dumps| && r in s.log.dumps[k].body;
        assert DumpSound(s.log.dumps[k], s.log, s.cfg.length);
      }
    }
  }

  /** What the current session recorded came from the devices its mask selected, also if
      setDevicesToRecord was called since. */
  lemma SelectedDevicesAreRecorded(s: State, r: InputRecord)
    requires Reachable(s) && s.log.base <= |s.log.hist|
    requires r in s.mem.file || r in s.log.hist[s.log.base..]
    ensures |s.cfg.available| <= 64
    ensures DeliveredBy(DeviceMask.Selected(s.cfg.available, s.log.inForce, |s.cfg.available|), r)
  {
    ReachableHolds(s);
    assert DeliveredBy(s.mem.devs, r) by {
      if r !in s.mem.file {
        var i :| s.log.base <= i < |s.log.hist| && s.log.hist[i] == r;
        assert Seen(s)[s.log.base..][i - s.log.base] == r;
      }
    }
    var d :| d in s.mem.devs && d.kind == r.dev;
  }

  /** Once a stop is stamped, m_stop_time lies in the session: only a read in the gap
      between the flag's store and the stamp can see an earlier one. */
  lemma StopTimeBelongsToSession(s: State)
    requires Reachable(s) && s.cfg.continuous && Stamped(s.rec) && s.stop && !BetweenStoreAndStamp(s)
    ensures s.startTime <= s.stopTime <= s.clock
  {
    ReachableHolds(s);
  }

  /** Only the activation store of Record clears the stop flag. */
  lemma OnlyActivationClearsStop(s: State, l: Label)
    requires ThreadInv(s) && Enabled(s, l) && s.stop && !Next(s, l).stop
    ensures s.rec.ActivateStore? && l.RecStep?
  {
    match l
    case RpcStep =>
    case RecStep(io) =>
    case BufStep(timeout) =>
    case _ =>
  }
}
