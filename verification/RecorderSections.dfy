// The pieces of Record, Stop and processBuffer between two lock operations, as functions
// of values, and as runs of the step system in which no other thread interferes.
module RecorderSections {
  import opened InputEvents
  import DeviceMask
  import opened RecorderProtocol
  import opened RecorderSafety
  import opened RecorderProgress
  import RecorderTheorems
  import RollingWindow

  // ---- Trim loops ----

  predicate Pops(b: seq<InputRecord>, cutoff: int, capped: bool) {
    if capped then PeriodicPops(b, cutoff) else FinalPops(b, cutoff)
  }

  /** What popping from the front leaves. */
  function Trimmed(b: seq<InputRecord>, cutoff: int, capped: bool): seq<InputRecord> {
    if Pops(b, cutoff, capped) then Trimmed(b[1..], cutoff, capped) else b
  }

  lemma {:induction false} TrimmedIsSuffix(b: seq<InputRecord>, cutoff: int, capped: bool) returns (k: nat)
    ensures k <= |b| && Trimmed(b, cutoff, capped) == b[k..] && !Pops(b[k..], cutoff, capped)
    ensures k > 0 ==> Pops(b[k - 1..], cutoff, capped)
  {
    if Pops(b, cutoff, capped) {
      var j := TrimmedIsSuffix(b[1..], cutoff, capped);
      k := j + 1;
      assert b[1..][j..] == b[k..];
      if j > 0 { assert b[1..][j - 1..] == b[k - 1..]; } else { assert b[0..] == b; }
    } else {
      k := 0;
    }
  }

  /** On records in time order, popping from the front leaves exactly what is young enough
      and, with the cap, among the last FILE_MAX_LINES. */
  lemma TrimmedIsWindow(b: seq<InputRecord>, p: Pass)
    requires Sorted(b) && p.len == |b|
    ensures RecorderTheorems.PassStart(p, b) <= |b|
    ensures Trimmed(b, p.cutoff, p.capped) == b[RecorderTheorems.PassStart(p, b)..]
  {
    var k := TrimmedIsSuffix(b, p.cutoff, p.capped);
    WindowStartsAt(b, p, k);
  }

  lemma WindowStartsAt(b: seq<InputRecord>, p: Pass, k: nat)
    requires Sorted(b) && p.len == |b| && k <= |b|
    requires !Pops(b[k..], p.cutoff, p.capped) && (k > 0 ==> Pops(b[k - 1..], p.cutoff, p.capped))
    ensures RecorderTheorems.PassStart(p, b) == k
  {
    PopsIsCondemns(b, p, k);
    RecorderTheorems.PassStartIsExact(p, b, k);
    if k > 0 {
      PopsIsCondemns(b, p, k - 1);
      RecorderTheorems.PassStartIsExact(p, b, k - 1);
    }
  }

  lemma PopsIsCondemns(b: seq<InputRecord>, p: Pass, k: nat)
    requires k <= |b| == p.len
    ensures Pops(b[k..], p.cutoff, p.capped) <==> RollingWindow.Condemns(p, b, k)
  {
  }

  predicate AtTrim(s: State) { s.buf.TrimHeld? || s.buf.FinalHeld? }

  function Cutoff(s: State): int
    requires AtTrim(s)
  {
    if s.buf.TrimHeld? then s.buf.cutoff else s.buf.stopRead - s.cfg.length
  }

  /** processBuffer alone leads from s to t. */
  ghost predicate BufRunsTo(s: State, t: State) {
    && ValidConfig(s.cfg)
    && exists ls: seq<Label> :: (forall i :: 0 <= i < |ls| ==> ls[i].BufStep?) && Legal(s, ls) && After(s, ls) == t
  }

  lemma BufRunsFirst(s: State, timeout: bool, t: State)
    requires ValidConfig(s.cfg) && Enabled(s, BufStep(timeout)) && BufRunsTo(BufNext(s, timeout), t)
    ensures BufRunsTo(s, t)
  {
    var rest: seq<Label> :| (forall i :: 0 <= i < |rest| ==> rest[i].BufStep?) && Legal(BufNext(s, timeout), rest)
                && After(BufNext(s, timeout), rest) == t;
    var ls := [BufStep(timeout)] + rest;
    assert ls[1..] == rest;
    assert Legal(s, ls) && After(s, ls) == t;
  }

  lemma BufRunsNowhere(s: State)
    requires ValidConfig(s.cfg)
    ensures BufRunsTo(s, s)
  {
    assert Legal(s, []) && After(s, []) == s;
  }

  /** One step of the loop pops, or ends it. */
  lemma TrimStep(s: State)
    requires AtTrim(s)
    ensures var s' := BufNext(s, false);
            && s'.log.dumps == s.log.dumps
            && if Pops(s.mem.inputBuf, Cutoff(s), s.buf.TrimHeld?) then
              && s'.buf == s.buf && s'.mem == s.mem.(inputBuf := s.mem.inputBuf[1..]) && SameFlagAndTimes(s, s')
            else
              && s'.buf == (if s.buf.TrimHeld? then BufLoopTop else DumpHeld(s.buf.stopRead))
              && s'.mem == s.mem && SameFlagAndTimes(s, s')
  {
  }

  /** The step system's trim loop, run without interruption, leaves the trimmed buffer and
      goes on to the next loop test or to the dump. */
  lemma {:induction false} TrimSection(s: State) returns (t: State)
    requires ValidConfig(s.cfg) && AtTrim(s) && !s.rpc.Terminated?
    ensures BufRunsTo(s, t)
    ensures t.mem == s.mem.(inputBuf := Trimmed(s.mem.inputBuf, Cutoff(s), s.buf.TrimHeld?))
    ensures t.buf == if s.buf.TrimHeld? then BufLoopTop else DumpHeld(s.buf.stopRead)
    ensures SameFlagAndTimes(s, t) && t.log.dumps == s.log.dumps
    decreases |s.mem.inputBuf|
  {
    TrimStep(s);
    if Pops(s.mem.inputBuf, Cutoff(s), s.buf.TrimHeld?) {
      t := TrimSection(BufNext(s, false));
    } else {
      t := BufNext(s, false);
      BufRunsNowhere(t);
    }
    BufRunsFirst(s, false, t);
  }

  /** What the trim does not touch. */
  predicate SameFlagAndTimes(s: State, t: State) {
    && t.cfg == s.cfg && t.clock == s.clock && t.rpc == s.rpc && t.rec == s.rec
    && t.stop == s.stop && t.stopTime == s.stopTime && t.startTime == s.startTime
  }

  /** A periodic pass, from the reading of the clock on: what remains is the window that
      ends now. */
  lemma PassSection(s: State) returns (t: State)
    requires ValidConfig(s.cfg) && s.buf.TrimClock? && s.bufMtx.Free? && !s.rpc.Terminated?
    ensures BufRunsTo(s, t) && t.buf.BufLoopTop? && SameFlagAndTimes(s, t)
    ensures t.mem == s.mem.(inputBuf := Trimmed(s.mem.inputBuf, s.clock - s.cfg.length, true))
  {
    var want := BufNext(s, false);
    t := TrimSection(BufNext(want, false));
    BufRunsFirst(want, false, t);
    BufRunsFirst(s, false, t);
  }

  /** One turn of processBuffer's loop in which nobody stops it: it waits, times out and
      makes one pass. */
  lemma LoopSection(s: State) returns (t: State)
    requires ValidConfig(s.cfg) && s.buf.BufLoopTop? && !s.stop && !s.rpc.Terminated?
    requires s.stopMtx.Free? && s.bufMtx.Free?
    ensures BufRunsTo(s, t) && t.buf.BufLoopTop? && SameFlagAndTimes(s, t)
    ensures t.mem == s.mem.(inputBuf := Trimmed(s.mem.inputBuf, s.clock - s.cfg.length, true))
  {
    WaitSection(s);
    var pass := s.(buf := TrimClock);
    t := PassSection(pass);
    BufRunsJoined(s, pass, t);
  }

  lemma WaitSection(s: State)
    requires ValidConfig(s.cfg) && s.buf.BufLoopTop? && !s.stop && !s.rpc.Terminated? && s.stopMtx.Free?
    ensures BufRunsTo(s, s.(buf := TrimClock))
  {
    var want := BufNext(s, false);
    var held := BufNext(want, false);
    var waiting := BufNext(held, false);
    var timeout := BufNext(waiting, true);
    var again := BufNext(timeout, false);
    var pass := BufNext(again, false);
    BufRunsNowhere(pass);
    BufRunsFirst(again, false, pass);
    BufRunsFirst(timeout, false, pass);
    BufRunsFirst(waiting, true, pass);
    BufRunsFirst(held, false, pass);
    BufRunsFirst(want, false, pass);
    BufRunsFirst(s, false, pass);
  }

  /** The end of processBuffer once the flag is set: the final pass and one dump of what it
      leaves. */
  lemma FinishSection(s: State) returns (t: State)
    requires ValidConfig(s.cfg) && s.buf.BufLoopTop? && s.stop && s.bufMtx.Free? && !s.rpc.Terminated?
    ensures BufRunsTo(s, t) && t.buf.BufFinished? && SameFlagAndTimes(s, t)
    ensures t.mem == s.mem.(inputBuf := Trimmed(s.mem.inputBuf, s.stopTime - s.cfg.length, false))
    ensures |t.log.dumps| == |s.log.dumps| + 1 && s.log.dumps <= t.log.dumps
    ensures var d := t.log.dumps[|s.log.dumps|];
            d.body == t.mem.inputBuf && d.header == Header(s.stopTime, s.stopTime, s.startTime, s.cfg.length)
  {
    var read := BufNext(s, false);
    var want := BufNext(read, false);
    var dump := TrimSection(BufNext(want, false));
    BufRunsFirst(want, false, dump);
    BufRunsFirst(read, false, dump);
    BufRunsFirst(s, false, dump);
    t := DumpSection(dump);
    BufRunsJoined(s, dump, t);
  }

  lemma DumpSection(s: State) returns (t: State)
    requires ValidConfig(s.cfg) && s.buf.DumpHeld? && !s.rpc.Terminated?
    ensures BufRunsTo(s, t) && t.buf.BufFinished? && SameFlagAndTimes(s, t) && t.mem == s.mem
    ensures |t.log.dumps| == |s.log.dumps| + 1 && s.log.dumps <= t.log.dumps
    ensures var d := t.log.dumps[|s.log.dumps|];
            d.body == s.mem.inputBuf && d.header == Header(s.buf.stopRead, s.stopTime, s.startTime, s.cfg.length)
  {
    t := BufNext(s, false);
    BufRunsNowhere(t);
    BufRunsFirst(s, false, t);
  }

  lemma BufRunsJoined(s: State, t: State, u: State)
    requires BufRunsTo(s, t) && BufRunsTo(t, u)
    ensures BufRunsTo(s, u)
  {
    var a: seq<Label> :| (forall i :: 0 <= i < |a| ==> a[i].BufStep?) && Legal(s, a) && After(s, a) == t;
    var b: seq<Label> :| (forall i :: 0 <= i < |b| ==> b[i].BufStep?) && Legal(t, b) && After(t, b) == u;
    Joined(s, a, t, b);
    assert forall i :: 0 <= i < |a + b| ==> (a + b)[i].BufStep?;
  }

  /** In terms of the records: a periodic pass at time now keeps exactly those that are not
      older than the window and have fewer than FILE_MAX_LINES newer ones behind them. */
  lemma TrimmedKeepsExactly(b: seq<InputRecord>, now: int, length: int) returns (k: nat)
    requires Sorted(b)
    ensures k <= |b| && Trimmed(b, now - length, true) == b[k..]
    ensures forall i: nat :: i < |b| ==> (i >= k <==> now - b[i].tsAbs <= length && |b| - i <= FILE_MAX_LINES)
  {
    var p := Pass(now - length, true, |b|, now);
    TrimmedIsWindow(b, p);
    k := RecorderTheorems.PassStart(p, b);
    forall i: nat | i < |b| ensures i >= k <==> now - b[i].tsAbs <= length && |b| - i <= FILE_MAX_LINES {
      RecorderTheorems.PassStartIsExact(p, b, i);
    }
  }

  /** So does processBuffer in the step system, from the reading of the clock on. */
  lemma PassKeepsExactly(s: State) returns (t: State, k: nat)
    requires RecorderTheorems.Inv(s) && s.buf.TrimClock? && s.bufMtx.Free? && !s.rpc.Terminated?
    ensures BufRunsTo(s, t) && t.buf.BufLoopTop?
    ensures var b := s.mem.inputBuf;
            && k <= |b| && t.mem.inputBuf == b[k..]
            && forall i: nat :: i < |b| ==>
                 (i >= k <==> s.clock - b[i].tsAbs <= s.cfg.length && |b| - i <= 500000)
  {
    BufferIsSorted(s);
    t := PassSection(s);
    k := TrimmedKeepsExactly(s.mem.inputBuf, s.clock, s.cfg.length);
  }

  lemma BufferIsSorted(s: State)
    requires RecorderTheorems.Inv(s)
    ensures Sorted(s.mem.inputBuf)
  {
    forall i, j | 0 <= i < j < |s.mem.inputBuf|
      ensures s.mem.inputBuf[i].tsAbs <= s.mem.inputBuf[j].tsAbs
    {
      assert s.mem.inputBuf[i] == Seen(s)[s.log.evicted + i] && s.mem.inputBuf[j] == Seen(s)[s.log.evicted + j];
    }
  }

  // ---- Critical sections and is_done ----

  const STOP_RUN: seq<Label> := [RpcStep, RpcStep]
  const QUIET_1: seq<Label> := [RecStep(Quiet)]
  const QUIET_2: seq<Label> := [RecStep(Quiet), RecStep(Quiet)]
  const QUIET_3: seq<Label> := [RecStep(Quiet), RecStep(Quiet), RecStep(Quiet)]
  const QUIET_4: seq<Label> := [RecStep(Quiet), RecStep(Quiet), RecStep(Quiet), RecStep(Quiet)]

  /** Stop's critical section. */
  lemma StopSection(s: State)
    requires ValidConfig(s.cfg) && s.rpc.StopStore?
    ensures Legal(s, STOP_RUN)
    ensures After(s, STOP_RUN) == s.(stop := true, stopTime := s.clock, stopMtx := Free, rpc := StopNotify,
                                     log := s.log.(stamped := |Seen(s)|))
  {
    var ls, t := Extend(s, [], s, RpcStep);
    ls, t := Extend(s, ls, t, RpcStep);
    assert ls == STOP_RUN;
  }

  /** Record's first critical section and what it does before its select loop. */
  lemma ActivateSection(s: State)
    requires ValidConfig(s.cfg) && s.rec.ActivateStore? && !s.rpc.Terminated?
    ensures Legal(s, QUIET_4)
    ensures var t := After(s, QUIET_4);
            && t.rec.LoopTop? && t.cfg == s.cfg && t.rpc == s.rpc
            && !t.stop && t.startTime == s.clock == t.clock && t.stopTime == s.stopTime
            && t.mem == s.mem.(devs := DeviceMask.Selected(s.cfg.available, s.mem.mask, |s.cfg.available|),
                               file := if s.cfg.continuous then s.mem.file else [])
  {
    var ls, t := Extend(s, [], s, RecStep(Quiet));
    ls, t := Extend(s, ls, t, RecStep(Quiet));
    ls, t := Extend(s, ls, t, RecStep(Quiet));
    ls, t := Extend(s, ls, t, RecStep(Quiet));
    assert ls == QUIET_4;
  }

  predicate PastDeadline(s: State) {
    !s.cfg.continuous && s.clock - s.startTime >= s.cfg.length
  }

  function DoneRun(s: State): seq<Label> {
    if s.stop || s.cfg.continuous then QUIET_1 else QUIET_4
  }

  /** is_done in Record: the loop is left exactly if the flag is set or the deadline has
      passed, and then the flag is set. */
  lemma DoneSection(s: State)
    requires ValidConfig(s.cfg) && s.rec.LoopTop? && s.stopMtx.Free? && !s.rpc.Terminated?
    ensures Legal(s, DoneRun(s))
    ensures var t, done := After(s, DoneRun(s)), s.stop || PastDeadline(s);
            && t.rec == (if done then LoopExit(s) else Select) && t.stop == done
            && t.cfg == s.cfg && t.rpc == s.rpc && t.mem == s.mem && t.clock == s.clock
            && t.startTime == s.startTime && t.stopTime == s.stopTime
  {
    var ls, t := Extend(s, [], s, RecStep(Quiet));
    if s.stop || s.cfg.continuous {
      assert ls == QUIET_1;
    } else {
      ls, t := Extend(s, ls, t, RecStep(Quiet));
      ls, t := Extend(s, ls, t, RecStep(Quiet));
      ls, t := Extend(s, ls, t, RecStep(Quiet));
      assert ls == QUIET_4;
    }
  }

  // ---- One round of the select loop ----

  /** What a ready device delivers: the event as read, the layout's keysym, the time. */
  datatype Delivery = Nothing | Delivery(ev: Event, keysym: uint32, now: int)

  predicate IsEscapeDelivery(i: Delivery) { i.Delivery? && IsEscape(i.ev) }

  /** What is recorded of it: nothing for ESC, otherwise the transformed event. */
  function RecordsOf(dev: Device, i: Delivery): seq<InputRecord> {
    if i.Nothing? || IsEscape(i.ev) then []
    else [MakeRecord(i.now, dev, Transformed(dev, i.ev), i.keysym)]
  }

  /** The records of the first n devices of a round, one after the other. */
  function RoundRecords(devs: seq<Device>, inputs: seq<Delivery>, n: nat): seq<InputRecord>
    requires n <= |devs| == |inputs|
  {
    if n == 0 then []
    else RoundRecords(devs, inputs, n - 1) + RecordsOf(devs[n - 1], inputs[n - 1])
  }

  predicate SawEscape(inputs: seq<Delivery>, n: nat)
    requires n <= |inputs|
  {
    exists i :: 0 <= i < n && IsEscapeDelivery(inputs[i])
  }

  /** m_stop_time after the first n devices: the time of the last ESC, if any. */
  function StopTimeAfter(stopTime: int, inputs: seq<Delivery>, n: nat): int
    requires n <= |inputs|
  {
    if n == 0 then stopTime
    else if IsEscapeDelivery(inputs[n - 1]) then inputs[n - 1].now
    else StopTimeAfter(stopTime, inputs, n - 1)
  }

  /** The clock when the first n devices have been served. */
  function ClockAfter(clock: int, inputs: seq<Delivery>, n: nat): int
    requires n <= |inputs|
  {
    if n == 0 then clock
    else if inputs[n - 1].Delivery? then inputs[n - 1].now
    else ClockAfter(clock, inputs, n - 1)
  }

  /** The times of the deliveries do not decrease. */
  ghost predicate InOrder(clock: int, inputs: seq<Delivery>) {
    forall n :: 0 <= n < |inputs| && inputs[n].Delivery? ==> ClockAfter(clock, inputs, n) <= inputs[n].now
  }

  function ReadRun(dev: Device, ev: Event, keysym: uint32, now: int): seq<Label> {
    [Tick(now), RecStep(Input(Transformed(dev, ev), keysym))]
  }

  /** The steps that serve one device. */
  function DeviceRun(dev: Device, i: Delivery, continuous: bool): seq<Label> {
    match i
    case Nothing => QUIET_1
    case Delivery(ev, keysym, now) =>
      ReadRun(dev, ev, keysym, now) +
        if IsEscape(ev) then QUIET_3 else if continuous then QUIET_2 else []
  }

  function RoundRun(devs: seq<Device>, inputs: seq<Delivery>, continuous: bool, n: nat): seq<Label>
    requires n <= |devs| == |inputs|
  {
    if n == 0 then []
    else RoundRun(devs, inputs, continuous, n - 1) + DeviceRun(devs[n - 1], inputs[n - 1], continuous)
  }

  /** Record is about to serve device i and nobody holds a lock. */
  predicate AtRound(s: State, i: nat) {
    s.rec == Round(i) && s.stopMtx.Free? && s.bufMtx.Free? && !s.rpc.Terminated?
  }

  /** t is s after n devices have been served. */
  predicate Served(s: State, t: State, inputs: seq<Delivery>, n: nat)
    requires n <= |s.mem.devs| == |inputs|
  {
    var rs := RoundRecords(s.mem.devs, inputs, n);
    && AtRound(t, n) && t.cfg == s.cfg && t.rpc == s.rpc && t.startTime == s.startTime
    && t.clock == ClockAfter(s.clock, inputs, n)
    && t.stop == (s.stop || SawEscape(inputs, n))
    && t.stopTime == StopTimeAfter(s.stopTime, inputs, n)
    && t.mem == s.mem.(inputBuf := s.mem.inputBuf + (if s.cfg.continuous then rs else []),
                       file := s.mem.file + (if s.cfg.continuous then [] else rs))
  }

  function RecordOf(dev: Device, d: Delivery): InputRecord
    requires d.Delivery?
  {
    MakeRecord(d.now, dev, Transformed(dev, d.ev), d.keysym)
  }

  /** The clock is read and the event looked at. */
  lemma ReadDevice(s: State, i: nat, d: Delivery) returns (t: State)
    requires ValidConfig(s.cfg) && AtRound(s, i) && i < |s.mem.devs| && d.Delivery? && s.clock <= d.now
    ensures var ls := ReadRun(s.mem.devs[i], d.ev, d.keysym, d.now); Legal(s, ls) && After(s, ls) == t
    ensures var r := RecordOf(s.mem.devs[i], d);
            t == if IsEscape(d.ev) then s.(clock := d.now, rec := EscWant(i))
                 else if s.cfg.continuous then s.(clock := d.now, rec := PushWant(i, r))
                 else s.(clock := d.now, rec := Round(i + 1), mem := s.mem.(file := s.mem.file + [r]))
  {
    TransformedKeepsKind(s.mem.devs[i], d.ev);
    var ls;
    ls, t := Extend(s, [], s, Tick(d.now));
    ls, t := Extend(s, ls, t, RecStep(Input(Transformed(s.mem.devs[i], d.ev), d.keysym)));
    assert ls == ReadRun(s.mem.devs[i], d.ev, d.keysym, d.now);
  }

  lemma EscapeSteps(s: State) returns (t: State)
    requires ValidConfig(s.cfg) && s.rec.EscWant? && s.stopMtx.Free? && !s.rpc.Terminated?
    ensures Legal(s, QUIET_3) && After(s, QUIET_3) == t
    ensures t == s.(stop := true, stopTime := s.clock, rec := Round(s.rec.i + 1), log := t.log)
  {
    var ls;
    ls, t := Extend(s, [], s, RecStep(Quiet));
    ls, t := Extend(s, ls, t, RecStep(Quiet));
    ls, t := Extend(s, ls, t, RecStep(Quiet));
    assert ls == QUIET_3;
  }

  lemma PushSteps(s: State) returns (t: State)
    requires ValidConfig(s.cfg) && s.rec.PushWant? && s.bufMtx.Free? && !s.rpc.Terminated?
    ensures Legal(s, QUIET_2) && After(s, QUIET_2) == t
    ensures t == s.(mem := s.mem.(inputBuf := s.mem.inputBuf + [s.rec.r]), log := t.log, rec := Round(s.rec.i + 1))
  {
    var ls;
    ls, t := Extend(s, [], s, RecStep(Quiet));
    ls, t := Extend(s, ls, t, RecStep(Quiet));
    assert ls == QUIET_2;
  }

  lemma QuietDevice(s: State, i: nat) returns (t: State)
    requires ValidConfig(s.cfg) && AtRound(s, i) && i < |s.mem.devs|
    ensures Legal(s, QUIET_1) && After(s, QUIET_1) == t && t == s.(rec := Round(i + 1))
  {
    var ls;
    ls, t := Extend(s, [], s, RecStep(Quiet));
    assert ls == QUIET_1;
  }

  /** t is s after its device i has delivered d. */
  predicate DeviceServed(s: State, t: State, i: nat, d: Delivery)
    requires i < |s.mem.devs|
  {
    var rs := RecordsOf(s.mem.devs[i], d);
    && AtRound(t, i + 1) && t.cfg == s.cfg && t.rpc == s.rpc && t.startTime == s.startTime
    && t.clock == (if d.Nothing? then s.clock else d.now)
    && t.stop == (s.stop || IsEscapeDelivery(d))
    && t.stopTime == (if IsEscapeDelivery(d) then d.now else s.stopTime)
    && t.mem == s.mem.(inputBuf := s.mem.inputBuf + (if s.cfg.continuous then rs else []),
                       file := s.mem.file + (if s.cfg.continuous then [] else rs))
  }

  lemma EscapeDevice(s: State, i: nat, d: Delivery) returns (t: State)
    requires ValidConfig(s.cfg) && AtRound(s, i) && i < |s.mem.devs| && IsEscapeDelivery(d) && s.clock <= d.now
    ensures var ls := DeviceRun(s.mem.devs[i], d, s.cfg.continuous); Legal(s, ls) && After(s, ls) == t
    ensures t == s.(clock := d.now, stop := true, stopTime := d.now, rec := Round(i + 1), log := t.log)
  {
    var u := ReadDevice(s, i, d);
    t := EscapeSteps(u);
    Joined(s, ReadRun(s.mem.devs[i], d.ev, d.keysym, d.now), u, QUIET_3);
  }

  lemma RecordDevice(s: State, i: nat, d: Delivery) returns (t: State)
    requires ValidConfig(s.cfg) && AtRound(s, i) && i < |s.mem.devs|
    requires d.Delivery? && !IsEscape(d.ev) && s.clock <= d.now
    ensures var ls := DeviceRun(s.mem.devs[i], d, s.cfg.continuous); Legal(s, ls) && After(s, ls) == t
    ensures var r := RecordOf(s.mem.devs[i], d);
            t == s.(clock := d.now, rec := Round(i + 1), log := t.log,
                    mem := if s.cfg.continuous then s.mem.(inputBuf := s.mem.inputBuf + [r])
                           else s.mem.(file := s.mem.file + [r]))
  {
    var u := ReadDevice(s, i, d);
    var read := ReadRun(s.mem.devs[i], d.ev, d.keysym, d.now);
    if s.cfg.continuous {
      t := PushSteps(u);
      Joined(s, read, u, QUIET_2);
    } else {
      t := u;
      assert read + [] == read;
    }
  }

  lemma DeviceSection(s: State, i: nat, d: Delivery) returns (t: State)
    requires ValidConfig(s.cfg) && AtRound(s, i) && i < |s.mem.devs| && (d.Delivery? ==> s.clock <= d.now)
    ensures var ls := DeviceRun(s.mem.devs[i], d, s.cfg.continuous); Legal(s, ls) && After(s, ls) == t
    ensures DeviceServed(s, t, i, d)
  {
    if d.Nothing? {
      t := QuietDevice(s, i);
    } else if IsEscape(d.ev) {
      t := EscapeDevice(s, i, d);
    } else {
      t := RecordDevice(s, i, d);
    }
  }

  lemma ServedOneMore(s: State, u: State, t: State, inputs: seq<Delivery>, n: nat)
    requires 0 < n <= |s.mem.devs| == |inputs|
    requires Served(s, u, inputs, n - 1) && DeviceServed(u, t, n - 1, inputs[n - 1])
    ensures Served(s, t, inputs, n)
  {
    EscapeSeenSoFar(inputs, n);
  }

  lemma EscapeSeenSoFar(inputs: seq<Delivery>, n: nat)
    requires 0 < n <= |inputs|
    ensures SawEscape(inputs, n) <==> SawEscape(inputs, n - 1) || IsEscapeDelivery(inputs[n - 1])
  {
  }

  /** The for-loop over the devices, run without interruption: it records the transformed
      non-ESC events of its devices in order, and stops exactly on ESC. */
  lemma {:induction false} RoundSection(s: State, inputs: seq<Delivery>, n: nat) returns (t: State)
    requires ValidConfig(s.cfg) && AtRound(s, 0) && n <= |s.mem.devs| == |inputs| && InOrder(s.clock, inputs)
    ensures var ls := RoundRun(s.mem.devs, inputs, s.cfg.continuous, n); Legal(s, ls) && After(s, ls) == t
    ensures Served(s, t, inputs, n)
  {
    if n == 0 {
      t := s;
    } else {
      var d := inputs[n - 1];
      var before := RoundRun(s.mem.devs, inputs, s.cfg.continuous, n - 1);
      var last := DeviceRun(s.mem.devs[n - 1], d, s.cfg.continuous);
      var u := RoundSection(s, inputs, n - 1);
      t := DeviceSection(u, n - 1, d);
      ServedOneMore(s, u, t, inputs, n);
      Joined(s, before, u, last);
      assert RoundRun(s.mem.devs, inputs, s.cfg.continuous, n) == before + last;
    }
  }
}
