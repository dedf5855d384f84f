// The file written while a fixed-length recording runs.
module FixedLength {
  import opened InputEvents
  import opened RecorderProtocol
  import opened RecorderSafety

  /** The file of the current session is open, or complete. */
  predicate FileCurrent(s: State) {
    !s.cfg.continuous && (InLoop(s.rec) || s.rec.RecFinished?)
  }

  /** How many devices of the current round have been served. */
  function DevicesServed(s: State): nat {
    match s.rec
    case Round(i) => i
    case EscWant(i) => i
    case EscStore(i) => i
    case EscStamp(i) => i
    case _ => |s.mem.devs|
  }

  ghost predicate AllBefore(f: seq<InputRecord>, t: int) {
    forall i :: 0 <= i < |f| ==> f[i].tsAbs < t
  }

  ghost predicate FileInv(s: State) {
    FileCurrent(s) ==>
      && Sorted(s.mem.file)
      && AllWithin(s.mem.file, s.startTime, s.clock)
      && s.log.roundStart <= |s.mem.file| <= s.log.roundStart + DevicesServed(s)
      // whatever precedes the current round was written before the deadline
      && AllBefore(s.mem.file[..s.log.roundStart], s.startTime + s.cfg.length)
      && (s.rec.TimedWant? || s.rec.TimedHeld? ==> AllBefore(s.mem.file, s.rec.t + 1))
      && (s.rec.Select? ==> AllBefore(s.mem.file, s.startTime + s.cfg.length))
  }

  lemma FileAppend(f: seq<InputRecord>, r: InputRecord, lo: int, now: int)
    requires Sorted(f) && AllWithin(f, lo, now) && r.tsAbs == now && lo <= now
    ensures Sorted(f + [r]) && AllWithin(f + [r], lo, now)
  {
  }

  lemma FileStepRound(s: State, io: RecIo)
    requires ThreadInv(s) && ClockInv(s) && FileInv(s) && RecEnabled(s, io) && s.rec.Round?
    ensures FileInv(RecNext(s, io))
  {
    var s' := RecNext(s, io);
    if s'.mem.file != s.mem.file {
      FileAppend(s.mem.file, s'.mem.file[|s.mem.file|], s.startTime, s.clock);
      assert s'.mem.file[..s.log.roundStart] == s.mem.file[..s.log.roundStart];
    }
  }

  /** Points of Record that neither serve a device nor begin or check a round. */
  predicate Uneventful(r: RecPc) {
    !r.Round? && !r.Select? && !r.Setup?
  }

  lemma FileStepQuiet(s: State, io: RecIo)
    requires ThreadInv(s) && ClockInv(s) && FileInv(s) && RecEnabled(s, io) && Uneventful(s.rec)
    ensures FileInv(RecNext(s, io))
  {
    var s' := RecNext(s, io);
    if FileCurrent(s') {
      assert FileCurrent(s) && s'.mem.file == s.mem.file && s'.log.roundStart == s.log.roundStart;
    }
  }

  lemma FileStepRec(s: State, io: RecIo)
    requires ThreadInv(s) && ClockInv(s) && FileInv(s) && RecEnabled(s, io)
    ensures FileInv(RecNext(s, io))
  {
    if Uneventful(s.rec) {
      FileStepQuiet(s, io);
    } else if s.rec.Round? {
      FileStepRound(s, io);
    } else if s.rec.Select? {
      assert s.mem.file[..|s.mem.file|] == s.mem.file;
    }
  }

  lemma FileUntouched(s: State, s': State)
    requires FileInv(s) && s'.mem.file == s.mem.file && s'.mem.devs == s.mem.devs
    requires s'.log.roundStart == s.log.roundStart && s'.startTime == s.startTime
    requires s'.cfg == s.cfg && s.clock <= s'.clock && (s'.rec == s.rec || !FileCurrent(s'))
    ensures FileInv(s')
  {
  }

  lemma FileStep(s: State, l: Label)
    requires ThreadInv(s) && ClockInv(s) && FileInv(s) && Enabled(s, l)
    ensures FileInv(Next(s, l))
  {
    match l
    case RecStep(io) => FileStepRec(s, io);
    case BufStep(timeout) => FileUntouched(s, Next(s, l));
    case RpcStep => FileUntouched(s, Next(s, l));
    case _ => FileUntouched(s, Next(s, l));
  }
}
