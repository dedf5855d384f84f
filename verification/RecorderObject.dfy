// The recorder object: its methods piece by piece, each showing what the step system does
// when the same piece runs there without interruption.
module RecorderObject {
  import opened InputEvents
  import opened RecordingFormat
  import opened Sequences
  import DeviceMask
  import opened RecorderProtocol
  import opened RecorderSections
  import FixedLength
  import TouchScaling

  /** The fields of the object, as a value. */
  datatype View = View(cfg: Config, mask: DeviceMask.uint64, stop: bool, startTime: int, stopTime: int,
                       inputBuf: seq<InputRecord>, cmdFile: seq<string>)

  /** They are those of a state s of the step system; what was written to a fixed-length
      file is the header and the lines of the records. */
  ghost predicate ShownBy(s: State, v: View) {
    && s.cfg == v.cfg && s.mem.mask == v.mask && s.mem.inputBuf == v.inputBuf
    && s.stop == v.stop && s.startTime == v.startTime && s.stopTime == v.stopTime
    && (FixedLength.FileCurrent(s) ==> v.cmdFile == StreamWrites(v.startTime, s.mem.file))
  }

  /** Records go to the buffer or to the file, by mode. */
  function Recorded(v: View, rs: seq<InputRecord>): View {
    if v.cfg.continuous then v.(inputBuf := v.inputBuf + rs)
    else v.(cmdFile := v.cmdFile + StreamedLines(rs))
  }

  /** What the delivery of one device does to the object: ESC stops it, anything else is
      recorded once. */
  function AfterInput(v: View, dev: Device, d: Delivery): View {
    if IsEscapeDelivery(d) then v.(stop := true, stopTime := d.now) else Recorded(v, RecordsOf(dev, d))
  }

  /** r is the record of what dev delivered: its time, the kind of its device, its type and
      code; its value, but for positions, which are scaled with their own axis; and the
      keysym for key events of keyboards. */
  ghost predicate RecordedAs(r: InputRecord, dev: Device, d: Delivery)
    requires d.Delivery?
  {
    && r.tsAbs == d.now && r.dev == dev.kind
    && r.event.evType == d.ev.evType && r.event.code == d.ev.code
    && r.keysym == (if dev.kind == Keyboard && d.ev.evType == EV_KEY then d.keysym else 0)
    && (d.ev.evType == EV_ABS && IsXAxis(d.ev.code) ==>
          r.event.value == TouchScaling.Scale(16000, dev.xMin, dev.xMax, d.ev.value)
          && (dev.xMin <= d.ev.value <= dev.xMax && 0 < dev.xMax - dev.xMin <= 0x7FFF_FFFF ==>
                ScaledFrom(r.event.value, d.ev.value - dev.xMin, 16000, dev.xMax - dev.xMin)))
    && (d.ev.evType == EV_ABS && IsYAxis(d.ev.code) ==>
          r.event.value == TouchScaling.Scale(9000, dev.yMin, dev.yMax, d.ev.value)
          && (dev.yMin <= d.ev.value <= dev.yMax && 0 < dev.yMax - dev.yMin <= 0x7FFF_FFFF ==>
                ScaledFrom(r.event.value, d.ev.value - dev.yMin, 9000, dev.yMax - dev.yMin)))
    && (!(d.ev.evType == EV_ABS && (IsXAxis(d.ev.code) || IsYAxis(d.ev.code))) ==> r.event.value == d.ev.value)
  }

  /** Nothing is recorded of an ESC key event, and of any other event just its record. */
  ghost predicate RecordsExactly(rs: seq<InputRecord>, dev: Device, d: Delivery) {
    if d.Nothing? || (d.ev.evType == EV_KEY && d.ev.code == KEY_ESC) then rs == []
    else |rs| == 1 && RecordedAs(rs[0], dev, d)
  }

  lemma RecordsOfIsExact(dev: Device, d: Delivery)
    ensures RecordsExactly(RecordsOf(dev, d), dev, d)
  {
    if d.Delivery? {
      TransformedTouchFits(dev, d.ev);
      TransformedKeepsKind(dev, d.ev);
    }
  }

  /** v' is v after dev has delivered d: one record more, in the buffer or the file by mode, or
      none and a stop. */
  ghost predicate HandledExactly(v: View, v': View, dev: Device, d: Delivery) {
    var escaped := d.Delivery? && d.ev.evType == EV_KEY && d.ev.code == KEY_ESC;
    exists rs :: RecordsExactly(rs, dev, d) &&
      v' == v.(inputBuf := if v.cfg.continuous then v.inputBuf + rs else v.inputBuf,
               cmdFile := if v.cfg.continuous then v.cmdFile else v.cmdFile + StreamedLines(rs),
               stop := v.stop || escaped, stopTime := if escaped then d.now else v.stopTime)
  }

  lemma HandledAsItShould(v: View, dev: Device, d: Delivery)
    ensures HandledExactly(v, AfterInput(v, dev, d), dev, d)
  {
    RecordsOfIsExact(dev, d);
    NothingRecorded(v);
  }

  lemma StreamedOne(r: InputRecord)
    ensures StreamedLines([r]) == [StreamedLine(r.tsAbs, r.dev, r.event, r.keysym)]
  {
    MappedFirst(StreamedRecord, [r]);
  }

  /** What the first n devices of a round do: all records in order, and a stop exactly if an
      ESC is among the events. */
  function AfterRound(v: View, devs: seq<Device>, inputs: seq<Delivery>, n: nat): View
    requires n <= |devs| == |inputs|
  {
    Recorded(v, RoundRecords(devs, inputs, n))
      .(stop := v.stop || SawEscape(inputs, n), stopTime := StopTimeAfter(v.stopTime, inputs, n))
  }

  /** The text of a dump: m_stop_time is read a second time for its header. */
  function TextOf(v: View, stopRead: int): string {
    DumpText(Header(stopRead, v.stopTime, v.startTime, v.cfg.length), v.inputBuf)
  }

  lemma NothingRecorded(v: View)
    ensures Recorded(v, []) == v
  {
    assert StreamedLines([]) == [];
  }

  lemma RecordedTwice(v: View, rs: seq<InputRecord>, more: seq<InputRecord>)
    ensures Recorded(Recorded(v, rs), more) == Recorded(v, rs + more)
  {
    Regroup(v.inputBuf, rs, more);
    var a, b := StreamedLines(rs), StreamedLines(more);
    StreamedMore(rs, more);
    Regroup(v.cmdFile, a, b);
    if !v.cfg.continuous { assert Recorded(v, rs).cmdFile == v.cmdFile + a; }
  }

  lemma RoundGrows(v: View, devs: seq<Device>, inputs: seq<Delivery>, n: nat)
    requires n < |devs| == |inputs|
    ensures AfterInput(AfterRound(v, devs, inputs, n), devs[n], inputs[n]) == AfterRound(v, devs, inputs, n + 1)
  {
    var rs, more := RoundRecords(devs, inputs, n), RecordsOf(devs[n], inputs[n]);
    EscapeSeenSoFar(inputs, n + 1);
    RecordedTwice(v, rs, more);
    if IsEscapeDelivery(inputs[n]) {
      assert rs + more == rs;
    } else {
      RecordedElsewhere(Recorded(v, rs), more, v.stop || SawEscape(inputs, n), StopTimeAfter(v.stopTime, inputs, n));
    }
  }

  lemma RecordedElsewhere(v: View, rs: seq<InputRecord>, stop: bool, stopTime: int)
    ensures Recorded(v.(stop := stop, stopTime := stopTime), rs) == Recorded(v, rs).(stop := stop, stopTime := stopTime)
  {
  }

  // ---- The pieces, and the same pieces in the step system ----

  /** is_done: Record leaves its loop exactly if the object says so. */
  lemma DoneShown(s: State, v: View)
    requires ValidConfig(s.cfg) && ShownBy(s, v) && s.rec.LoopTop? && s.stopMtx.Free? && !s.rpc.Terminated?
    ensures Legal(s, DoneRun(s))
    ensures var t, done := After(s, DoneRun(s)), v.stop || PastDeadline(s);
            ShownBy(t, v.(stop := done)) && t.rec == if done then LoopExit(s) else Select
  {
    DoneSection(s);
  }

  /** A trim loop of processBuffer leaves the same buffer, and goes on to the next loop test
      or to the dump. */
  lemma TrimShown(s: State, v: View) returns (t: State)
    requires ValidConfig(s.cfg) && ShownBy(s, v) && AtTrim(s) && !s.rpc.Terminated?
    ensures BufRunsTo(s, t)
    ensures ShownBy(t, v.(inputBuf := Trimmed(v.inputBuf, Cutoff(s), s.buf.TrimHeld?)))
    ensures t.buf == if s.buf.TrimHeld? then BufLoopTop else DumpHeld(s.buf.stopRead)
  {
    t := TrimSection(s);
  }

  /** A periodic pass from the reading of the clock on, and the end of processBuffer, leave
      the same object and dump; both begin at the loop test when nobody interferes. */
  lemma PassShown(s: State, v: View) returns (t: State)
    requires ValidConfig(s.cfg) && ShownBy(s, v) && s.bufMtx.Free? && !s.rpc.Terminated?
    requires s.buf.TrimClock? || (s.buf.BufLoopTop? && !s.stop && s.stopMtx.Free?)
    ensures BufRunsTo(s, t) && t.buf.BufLoopTop?
    ensures ShownBy(t, v.(inputBuf := Trimmed(v.inputBuf, s.clock - v.cfg.length, true)))
  {
    if s.buf.TrimClock? { t := PassSection(s); } else { t := LoopSection(s); }
  }

  lemma FinishShown(s: State, v: View) returns (t: State)
    requires ValidConfig(s.cfg) && ShownBy(s, v) && s.bufMtx.Free? && !s.rpc.Terminated?
    requires s.buf.BufLoopTop? && s.stop
    ensures BufRunsTo(s, t) && t.buf.BufFinished?
    ensures var v' := v.(inputBuf := Trimmed(v.inputBuf, v.stopTime - v.cfg.length, false));
            && ShownBy(t, v') && |t.log.dumps| == |s.log.dumps| + 1
            && var d := t.log.dumps[|s.log.dumps|];
               d.body == v'.inputBuf && d.header == Header(v.stopTime, v.stopTime, v.startTime, v.cfg.length)
  {
    t := FinishSection(s);
  }

  /** The dump that the step system logs next has the header and the records of which the
      object writes the text. */
  lemma DumpShown(s: State, v: View)
    requires ShownBy(s, v) && s.buf.DumpHeld?
    ensures var dumps := BufNext(s, false).log.dumps;
            var d := dumps[|dumps| - 1];
            && dumps == s.log.dumps + [d] && d.body == v.inputBuf
            && d.header == Header(s.buf.stopRead, v.stopTime, v.startTime, v.cfg.length)
  {
  }

  /** The for-loop over the devices shows the same object. */
  lemma RoundShown(s: State, v: View, inputs: seq<Delivery>)
    requires ValidConfig(s.cfg) && ShownBy(s, v) && AtRound(s, 0)
    requires |inputs| == |s.mem.devs| && InOrder(s.clock, inputs)
    ensures var ls := RoundRun(s.mem.devs, inputs, s.cfg.continuous, |inputs|);
            Legal(s, ls) && ShownBy(After(s, ls), AfterRound(v, s.mem.devs, inputs, |inputs|))
  {
    var t := RoundSection(s, inputs, |inputs|);
    var rs := RoundRecords(s.mem.devs, inputs, |inputs|);
    StreamContinues(s.startTime, s.mem.file, rs);
  }

  /** One pass of the loop in Record: when is_done is called, and what each device then
      delivers. */
  datatype LoopPass = LoopPass(now: int, inputs: seq<Delivery>)

  /** The records of the first n passes. */
  function LoopRecords(devs: seq<Device>, passes: seq<LoopPass>, n: nat): seq<InputRecord>
    requires n <= |passes| && forall p :: p in passes ==> |p.inputs| == |devs|
  {
    if n == 0 then []
    else LoopRecords(devs, passes, n - 1) + RoundRecords(devs, passes[n - 1].inputs, |devs|)
  }

  predicate PassEscapes(p: LoopPass) { SawEscape(p.inputs, |p.inputs|) }

  /** An ESC is delivered in one of the first n passes. */
  predicate EscapedBefore(passes: seq<LoopPass>, n: nat)
    requires n <= |passes|
  {
    exists i :: 0 <= i < n && PassEscapes(passes[i])
  }

  /** The pass comes too late for a fixed-length recording. */
  predicate TooLate(v: View, p: LoopPass) {
    !v.cfg.continuous && p.now - v.startTime >= v.cfg.length
  }

  /** v is v0 after n passes: none came too late, v0 was not stopped and no pass but the last
      delivered an ESC; the records are those of the passes and the flag is set exactly if
      it was or an ESC came. */
  ghost predicate LoopState(v0: View, v: View, devs: seq<Device>, passes: seq<LoopPass>, n: nat) {
    && n <= |passes| && (forall p :: p in passes ==> |p.inputs| == |devs|)
    && v == Recorded(v0, LoopRecords(devs, passes, n)).(stop := v.stop, stopTime := v.stopTime)
    && (forall i :: 0 <= i < n ==> !v0.stop && !TooLate(v0, passes[i]) && !EscapedBefore(passes, i))
    && (v.stop <==> v0.stop || EscapedBefore(passes, n))
  }

  lemma LoopStarts(v: View, devs: seq<Device>, passes: seq<LoopPass>)
    requires forall p :: p in passes ==> |p.inputs| == |devs|
    ensures LoopState(v, v, devs, passes, 0)
  {
    NothingRecorded(v);
  }

  lemma LoopGrows(v0: View, v: View, v': View, devs: seq<Device>, passes: seq<LoopPass>, n: nat)
    requires LoopState(v0, v, devs, passes, n) && n < |passes| && passes[n] in passes
    requires !v.stop && !TooLate(v, passes[n])
    requires v' == AfterRound(v, devs, passes[n].inputs, |devs|)
    ensures LoopState(v0, v', devs, passes, n + 1)
  {
    var rs, more := LoopRecords(devs, passes, n), RoundRecords(devs, passes[n].inputs, |devs|);
    RecordedTwice(v0, rs, more);
    RecordedElsewhere(Recorded(v0, rs), more, v.stop, v.stopTime);
    assert EscapedBefore(passes, n + 1) <==> EscapedBefore(passes, n) || PassEscapes(passes[n]);
  }

  /** How the loop ends: it has run through the passes, or the next one finds it stopped from
      the start, by an ESC, or past the deadline, and it counts as stopped. */
  ghost predicate LoopEnded(v0: View, v: View, devs: seq<Device>, passes: seq<LoopPass>, n: nat) {
    && n <= |passes| && (forall p :: p in passes ==> |p.inputs| == |devs|)
    && v == Recorded(v0, LoopRecords(devs, passes, n)).(stop := v.stop, stopTime := v.stopTime)
    && (forall i :: 0 <= i < n ==> !v0.stop && !TooLate(v0, passes[i]) && !EscapedBefore(passes, i))
    && (n < |passes| ==> v0.stop || EscapedBefore(passes, n) || TooLate(v0, passes[n]))
    && (v.stop <==> v0.stop || EscapedBefore(passes, n) || n < |passes|)
  }

  lemma LoopEnds(v0: View, v: View, v': View, devs: seq<Device>, passes: seq<LoopPass>, n: nat)
    requires LoopState(v0, v, devs, passes, n)
    requires v' == v || (n < |passes| && v' == v.(stop := true) && (v.stop || TooLate(v, passes[n])))
    requires n == |passes| || v'.stop
    ensures LoopEnded(v0, v', devs, passes, n)
  {
  }

  class TestRunnerRecorder {
    const available: DeviceList
    const recordingLength: uint32
    const continuous: bool
    var deviceMask: DeviceMask.uint64
    var stop: bool
    var startTime: int
    var stopTime: int
    var inputBuf: seq<InputRecord>
    var cmdFile: seq<string>             // the writes to the fixed-length file so far

    ghost function Fields(): View
      reads this
    {
      View(Config(available, recordingLength, continuous), deviceMask, stop, startTime, stopTime, inputBuf, cmdFile)
    }

    /** The object is in a state s of the step system. */
    ghost predicate Shows(s: State)
      reads this
    {
      ShownBy(s, Fields())
    }

    constructor (available: DeviceList, length: uint32, continuous: bool)
      ensures this.available == available && this.continuous == continuous
      ensures recordingLength == StoredLength(length)
      ensures length <= 4294967 ==> recordingLength == length * 1000
      ensures (length * 1000 - recordingLength) % 0x1_0000_0000 == 0
      ensures DeviceMask.Selected(available, deviceMask, |available|) == available
      ensures forall now: nat :: Shows(Init(Config(available, recordingLength, continuous), now))
    {
      this.available := available;
      this.recordingLength := length * 1000 % 0x1_0000_0000;
      this.continuous := continuous;
      deviceMask := DeviceMask.ALL_DEVICES;
      stop, startTime, stopTime := true, 0, 0;
      inputBuf := [];
      cmdFile := [];
      DeviceMask.DefaultMaskSelectsAll(available, |available|);
      assert available[..|available|] == available;
    }

    method SetDevicesToRecord(devices: seq<Device>)
      modifies this`deviceMask
      ensures DeviceMask.Selected(available, deviceMask, |available|)
              == DeviceMask.Wanted(available, set d | d in devices :: d.fd)
      ensures forall s :: old(Shows(s)) && s.rpc.Idle? ==> Shows(Next(s, SetMask(deviceMask)))
    {
      ghost var fds := set d | d in devices :: d.fd;
      var mask := 0;
      var i := 0;
      DeviceMask.MaskStart(available, fds);
      while i < |available|
        invariant 0 <= i <= |available|
        invariant DeviceMask.MaskUpTo(available, fds, mask, i)
      {
        var recordDevice := false;
        var k := 0;
        while k < |devices|
          invariant 0 <= k <= |devices|
          invariant recordDevice <==> exists d :: d in devices[..k] && d.fd == available[i].fd
        {
          if available[i].fd == devices[k].fd { recordDevice := true; }
          assert devices[..k + 1] == devices[..k] + [devices[k]];
          k := k + 1;
        }
        assert devices[..k] == devices;
        DeviceMask.MaskNext(available, fds, mask, i);
        if recordDevice {
          mask := DeviceMask.With(mask, i);
        }
        i := i + 1;
      }
      DeviceMask.MaskDone(available, fds, mask);
      deviceMask := mask;
    }

    /** devices_to_record and the argument for select. */
    method DevicesToRecord() returns (devs: seq<Device>, maxFd: int)
      ensures devs == DeviceMask.Selected(available, deviceMask, |available|)
      ensures forall d :: d in devs ==> d.fd <= maxFd
      ensures maxFd == 0 || exists d :: d in devs && d.fd == maxFd
    {
      devs, maxFd := [], 0;
      var i := 0;
      while i < |available|
        invariant 0 <= i <= |available|
        invariant devs == DeviceMask.Selected(available, deviceMask, i)
        invariant forall d :: d in devs ==> d.fd <= maxFd
        invariant maxFd == 0 || exists d :: d in devs && d.fd == maxFd
      {
        if DeviceMask.Has(deviceMask, i) {
          ghost var before := devs;
          devs := devs + [available[i]];
          assert available[i] in devs && forall d :: d in before ==> d in devs;
          if available[i].fd > maxFd { maxFd := available[i].fd; }
        }
        i := i + 1;
      }
    }

    /** Record's first critical section, and the opening of the fixed-length file. */
    method Activate(now: int)
      modifies this`stop, this`startTime, this`cmdFile
      ensures !stop && startTime == now
      ensures cmdFile == if continuous then old(cmdFile) else StreamWrites(now, [])
      ensures forall s :: old(Shows(s)) && s.rec.ActivateStore? && !s.rpc.Terminated? && s.clock == now ==>
                ValidConfig(s.cfg) && Legal(s, QUIET_4) && Shows(After(s, QUIET_4))
    {
      stop := false;
      startTime := now;
      if !continuous {
        cmdFile := [StreamedHeader(now)];
      }
      forall s | old(Shows(s)) && s.rec.ActivateStore? && !s.rpc.Terminated? && s.clock == now
        ensures ValidConfig(s.cfg) && Legal(s, QUIET_4) && Shows(After(s, QUIET_4))
      {
        ActivateSection(s);
      }
    }

    /** The critical section of Stop and of the destructor: what other threads see of the
        object next is what they see after Stop's two stores. */
    method RequestStop(now: int)
      modifies this`stop, this`stopTime
      ensures stop && stopTime == now
      ensures forall s :: old(Shows(s)) && s.rpc.StopStore? && s.clock == now ==>
                ValidConfig(s.cfg) && Legal(s, STOP_RUN) && Shows(After(s, STOP_RUN))
    {
      stop := true;
      stopTime := now;
      forall s | old(Shows(s)) && s.rpc.StopStore? && s.clock == now
        ensures ValidConfig(s.cfg) && Legal(s, STOP_RUN) && Shows(After(s, STOP_RUN))
      {
        StopSection(s);
      }
    }

    /** Done when stopped, or past the deadline of a fixed-length recording, which then
        counts as stopped. */
    method IsDone(now: int) returns (done: bool)
      modifies this`stop
      ensures done <==> old(stop) || (!continuous && now - startTime >= recordingLength)
      ensures Fields() == old(Fields()).(stop := done)
    {
      done := stop;
      if !stop && !continuous && now - startTime >= recordingLength {
        stop := true;
        done := true;
      }
    }

    /** One for-loop over the devices after select. */
    method ServeRound(devs: seq<Device>, inputs: seq<Delivery>)
      requires |inputs| == |devs|
      modifies this`stop, this`stopTime, this`inputBuf, this`cmdFile
      ensures Fields() == AfterRound(old(Fields()), devs, inputs, |devs|)
    {
      var i := 0;
      NothingRecorded(Fields());
      while i < |devs|
        invariant 0 <= i <= |devs|
        invariant Fields() == AfterRound(old(Fields()), devs, inputs, i)
      {
        HandleDelivery(devs[i], inputs[i]);
        RoundGrows(old(Fields()), devs, inputs, i);
        i := i + 1;
      }
    }

    /** What Record does with one device. */
    method HandleDelivery(dev: Device, d: Delivery)
      modifies this`stop, this`stopTime, this`inputBuf, this`cmdFile
      ensures Fields() == AfterInput(old(Fields()), dev, d)
      ensures HandledExactly(old(Fields()), Fields(), dev, d)
    {
      HandledAsItShould(Fields(), dev, d);
      NothingRecorded(Fields());
      if d.Nothing? { return; }
      if IsEscape(d.ev) {
        stop := true;
        stopTime := d.now;
        return;
      }
      var ev := Transformed(dev, d.ev);
      var keysym := if ev.evType == EV_KEY && dev.kind == Keyboard then d.keysym else 0;
      if continuous {
        inputBuf := inputBuf + [InputRecord(d.now, dev.kind, ev, keysym)];
      } else {
        StreamedOne(InputRecord(d.now, dev.kind, ev, keysym));
        cmdFile := cmdFile + [StreamedLine(d.now, dev.kind, ev, keysym)];
      }
    }

    /** The loop of Record as long as nobody else stops it: it serves the passes up to the
        first that finds it stopped or comes too late, and no more. */
    method RecordLoop(devs: seq<Device>, passes: seq<LoopPass>) returns (n: nat)
      requires forall p :: p in passes ==> |p.inputs| == |devs|
      modifies this`stop, this`stopTime, this`inputBuf, this`cmdFile
      ensures LoopEnded(old(Fields()), Fields(), devs, passes, n)
    {
      n := 0;
      LoopStarts(Fields(), devs, passes);
      while n < |passes|
        invariant LoopState(old(Fields()), Fields(), devs, passes, n)
      {
        ghost var v := Fields();
        var done := IsDone(passes[n].now);
        if done {
          LoopEnds(old(Fields()), v, Fields(), devs, passes, n);
          return;
        }
        assert passes[n] in passes && Fields() == v;
        ServeRound(devs, passes[n].inputs);
        LoopGrows(old(Fields()), v, Fields(), devs, passes, n);
        n := n + 1;
      }
      LoopEnds(old(Fields()), Fields(), Fields(), devs, passes, n);
    }

    /** A whole fixed-length recording that nobody stops: the file is the header and the lines
        of everything delivered up to the pass with the first ESC, or before the deadline. */
    method RecordFixedLength(now: int, passes: seq<LoopPass>) returns (devs: seq<Device>, n: nat)
      requires !continuous
      requires forall p :: p in passes ==>
                 |p.inputs| == |DeviceMask.Selected(available, deviceMask, |available|)|
      modifies this`stop, this`startTime, this`stopTime, this`inputBuf, this`cmdFile
      ensures devs == DeviceMask.Selected(available, deviceMask, |available|) && n <= |passes|
      ensures cmdFile == StreamWrites(now, LoopRecords(devs, passes, n))
      ensures forall i :: 0 <= i < n ==> passes[i].now - now < recordingLength && !EscapedBefore(passes, i)
      ensures n < |passes| ==> EscapedBefore(passes, n) || passes[n].now - now >= recordingLength
      ensures stop <==> EscapedBefore(passes, n) || n < |passes|
      ensures inputBuf == old(inputBuf)
    {
      Activate(now);
      var maxFd;
      devs, maxFd := DevicesToRecord();
      n := RecordLoop(devs, passes);
      StreamContinues(now, [], LoopRecords(devs, passes, n));
      assert [] + LoopRecords(devs, passes, n) == LoopRecords(devs, passes, n);
    }

    /** A periodic pass of processBuffer at time now. */
    method PeriodicTrim(now: int)
      modifies this`inputBuf
      ensures Fields() == old(Fields()).(inputBuf := Trimmed(old(inputBuf), now - recordingLength, true))
    {
      var cutoff := now - recordingLength;
      while PeriodicPops(inputBuf, cutoff)
        invariant Trimmed(inputBuf, cutoff, true) == Trimmed(old(inputBuf), cutoff, true)
        decreases |inputBuf|
      {
        inputBuf := inputBuf[1..];
      }
    }

    /** The final pass of processBuffer, with m_stop_time as it was read. */
    method FinalTrim(stopRead: int)
      modifies this`inputBuf
      ensures Fields() == old(Fields()).(inputBuf := Trimmed(old(inputBuf), stopRead - recordingLength, false))
    {
      var recStart := stopRead - recordingLength;
      while FinalPops(inputBuf, recStart)
        invariant Trimmed(inputBuf, recStart, false) == Trimmed(old(inputBuf), recStart, false)
        decreases |inputBuf|
      {
        inputBuf := inputBuf[1..];
      }
    }

    /** The dump, for which m_stop_time is read again. */
    method WriteDump(stopRead: int) returns (text: string)
      ensures text == TextOf(Fields(), stopRead)
    {
      var recStart := stopRead - recordingLength;
      var instant := if stopTime - startTime >= recordingLength then recStart else startTime;
      assert instant == Header(stopRead, stopTime, startTime, recordingLength);
      text := WriteDumpText(instant, inputBuf);
    }

    /** The end of processBuffer, run without interruption. */
    method FinishBuffer() returns (text: string)
      modifies this`inputBuf
      ensures Fields() == old(Fields()).(inputBuf := Trimmed(old(inputBuf), stopTime - recordingLength, false))
      ensures text == TextOf(Fields(), stopTime)
    {
      var stopRead := stopTime;
      FinalTrim(stopRead);
      text := WriteDump(stopRead);
    }
  }
}
