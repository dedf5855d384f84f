// What is recorded over a whole run: the events the devices deliver, in order, but for ESC.
module RecordedEvents {
  import opened InputEvents
  import opened RecorderProtocol
  import opened RecorderSafety
  import opened RecorderTheorems

  /** What a step delivers to be recorded: an event that is no ESC key event, with the time
      of the read, its device's kind and, for key events of keyboards, the keysym. */
  function Delivered(s: State, l: Label): seq<InputRecord>
    requires ValidConfig(s.cfg) && Enabled(s, l)
  {
    if !l.RecStep? || !l.io.Input? || (l.io.ev.evType == EV_KEY && l.io.ev.code == KEY_ESC) then []
    else
      var kind := s.mem.devs[s.rec.i].kind;
      var keysym := if kind == Keyboard && l.io.ev.evType == EV_KEY then l.io.keysym else 0;
      [InputRecord(s.clock, kind, Event(l.io.ev.evType, l.io.ev.code, l.io.ev.value), keysym)]
  }

  /** Everything a run delivers, after what came before. */
  ghost function AllDelivered(s: State, ls: seq<Label>, before: seq<InputRecord>): seq<InputRecord>
    requires ValidConfig(s.cfg) && Legal(s, ls)
    decreases |ls|
  {
    if ls == [] then before
    else
      ConfigIsFixed(s, ls[0]);
      AllDelivered(Next(s, ls[0]), ls[1..], before + Delivered(s, ls[0]))
  }

  /** The step opens a new fixed-length file. */
  predicate OpensFile(s: State, l: Label) {
    l.RecStep? && s.rec.Setup? && !s.cfg.continuous
  }

  /** What is delivered since the file was last opened, after what f holds. */
  ghost function DeliveredToFile(s: State, ls: seq<Label>, f: seq<InputRecord>): seq<InputRecord>
    requires ValidConfig(s.cfg) && Legal(s, ls)
    decreases |ls|
  {
    if ls == [] then f
    else
      ConfigIsFixed(s, ls[0]);
      DeliveredToFile(Next(s, ls[0]), ls[1..], if OpensFile(s, ls[0]) then [] else f + Delivered(s, ls[0]))
  }

  lemma StepRecordsRec(s: State, io: RecIo)
    requires ThreadInv(s) && RecEnabled(s, io) && !s.rpc.Terminated?
    ensures s.cfg.continuous ==>
              Seen(RecNext(s, io)) == Seen(s) + Delivered(s, RecStep(io)) && RecNext(s, io).mem.file == s.mem.file
    ensures !s.cfg.continuous ==>
              && Seen(RecNext(s, io)) == Seen(s)
              && RecNext(s, io).mem.file
                 == if OpensFile(s, RecStep(io)) then [] else s.mem.file + Delivered(s, RecStep(io))
  {
  }

  /** What one step adds to the records, in either mode. */
  lemma StepRecords(s: State, l: Label)
    requires ThreadInv(s) && Enabled(s, l)
    ensures s.cfg.continuous ==>
              Seen(Next(s, l)) == Seen(s) + Delivered(s, l) && Next(s, l).mem.file == s.mem.file
    ensures !s.cfg.continuous ==>
              && Seen(Next(s, l)) == Seen(s)
              && Next(s, l).mem.file == if OpensFile(s, l) then [] else s.mem.file + Delivered(s, l)
  {
    match l
    case RecStep(io) => StepRecordsRec(s, io);
    case BufStep(timeout) =>
    case RpcStep =>
    case _ =>
  }

  /** Over every run of a continuous recorder, with any number of sessions: what was pushed
      or is about to be is, in order, every event delivered that is no ESC. */
  lemma {:induction false} HistoryIsWhatWasDelivered(s: State, ls: seq<Label>)
    requires Inv(s) && s.cfg.continuous && Legal(s, ls)
    ensures Seen(After(s, ls)) == AllDelivered(s, ls, Seen(s))
    decreases |ls|
  {
    if ls == [] {
    } else {
      StepHolds(s, ls[0]);
      StepRecords(s, ls[0]);
      ConfigIsFixed(s, ls[0]);
      HistoryIsWhatWasDelivered(Next(s, ls[0]), ls[1..]);
    }
  }

  /** And the fixed-length file is what was delivered since it was opened. */
  lemma {:induction false} FileIsWhatWasDelivered(s: State, ls: seq<Label>)
    requires Inv(s) && !s.cfg.continuous && Legal(s, ls)
    ensures After(s, ls).mem.file == DeliveredToFile(s, ls, s.mem.file)
    decreases |ls|
  {
    if ls == [] {
    } else {
      StepHolds(s, ls[0]);
      StepRecords(s, ls[0]);
      ConfigIsFixed(s, ls[0]);
      FileIsWhatWasDelivered(Next(s, ls[0]), ls[1..]);
    }
  }
}
