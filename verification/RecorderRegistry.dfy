// The server's custom recorders, addressed by index.
module RecorderRegistry {
  import opened InputEvents
  import opened RecorderProtocol
  import RecorderTheorems
  import RecorderProgress

  const MAX_CUSTOM_RECORDERS: nat := 20
  const NO_INDEX: nat := 255

  /** A recorder, of whatever state S, with what it was created for. */
  datatype Entry<S> = Entry(name: string, length: uint32, continuous: bool, recorder: S)

  /** A request for a new recorder, which would begin in state initial; or a step of the
      recorder at an index: a call to it, or one of its own threads going on. */
  datatype Op<S, L> =
    | Create(name: string, length: uint32, continuous: bool, initial: S)
    | On(index: nat, l: L)

  predicate HasDotDot(name: string) {
    exists i :: 0 <= i < |name| - 1 && name[i] == '.' && name[i + 1] == '.'
  }

  predicate GoodName(name: string) {
    '/' !in name && !HasDotDot(name)
  }

  predicate Accepted<S, L>(op: Op<S, L>) {
    op.Create? && GoodName(op.name)
  }

  function NewEntry<S, L>(op: Op<S, L>): Entry<S>
    requires op.Create?
  {
    Entry(op.name, op.length, op.continuous, op.initial)
  }

  predicate Valid<S>(reg: seq<Entry<S>>) {
    |reg| <= MAX_CUSTOM_RECORDERS
  }

  /** The registry after an operation, and the index a creation answers; calls to an index
      that is not there do nothing. */
  function Perform<S, L>(step: (S, L) -> S, reg: seq<Entry<S>>, op: Op<S, L>): (r: (seq<Entry<S>>, nat))
    requires Valid(reg)
    ensures Valid(r.0) && |r.0| >= |reg|
  {
    match op
    case Create(_, _, _, _) =>
      if Accepted(op) && |reg| < MAX_CUSTOM_RECORDERS then (reg + [NewEntry(op)], |reg|)
      else (reg, NO_INDEX)
    case On(k, l) =>
      if k < |reg| then (reg[k := reg[k].(recorder := step(reg[k].recorder, l))], 0) else (reg, 0)
  }

  function PerformAll<S, L>(step: (S, L) -> S, reg: seq<Entry<S>>, ops: seq<Op<S, L>>): (r: seq<Entry<S>>)
    requires Valid(reg)
    ensures Valid(r) && |r| >= |reg|
    decreases |ops|
  {
    if ops == [] then reg else PerformAll(step, Perform(step, reg, ops[0]).0, ops[1..])
  }

  /** The creations of a run that the filename check lets through. */
  function Accepts<S, L>(ops: seq<Op<S, L>>): seq<Op<S, L>> {
    if ops == [] then [] else (if Accepted(ops[0]) then [ops[0]] else []) + Accepts(ops[1..])
  }

  /** The steps a run makes at index k. */
  function RunAt<S, L>(step: (S, L) -> S, s: S, ops: seq<Op<S, L>>, k: nat): S
    decreases |ops|
  {
    if ops == [] then s
    else RunAt(step, if ops[0].On? && ops[0].index == k then step(s, ops[0].l) else s, ops[1..], k)
  }

  /** A recorder's state depends only on the operations addressed to it: whatever is done
      to other indices, or created later, leaves it as if it were alone. */
  lemma {:induction false} RecordersAreIndependent<S, L>(
      step: (S, L) -> S, reg: seq<Entry<S>>, ops: seq<Op<S, L>>, k: nat)
    requires Valid(reg) && k < |reg|
    ensures PerformAll(step, reg, ops)[k] == reg[k].(recorder := RunAt(step, reg[k].recorder, ops, k))
    decreases |ops|
  {
    if ops == [] {
    } else {
      RecordersAreIndependent(step, Perform(step, reg, ops[0]).0, ops[1..], k);
    }
  }

  lemma {:induction false} AcceptsAreAccepted<S, L>(ops: seq<Op<S, L>>, k: nat)
    requires k < |Accepts(ops)|
    ensures Accepted(Accepts(ops)[k])
  {
    if Accepted(ops[0]) {
      if k > 0 { AcceptsAreAccepted(ops[1..], k - 1); }
    } else {
      AcceptsAreAccepted(ops[1..], k);
    }
  }

  function Least(a: nat, b: nat): nat { if a < b then a else b }

  /** Starting from n recorders, the run ends with as many as fit. */
  lemma {:induction false} AsManyAsFit<S, L>(step: (S, L) -> S, reg: seq<Entry<S>>, ops: seq<Op<S, L>>)
    requires Valid(reg)
    ensures |PerformAll(step, reg, ops)| == Least(MAX_CUSTOM_RECORDERS, |reg| + |Accepts(ops)|)
    decreases |ops|
  {
    if ops == [] {
    } else {
      AsManyAsFit(step, Perform(step, reg, ops[0]).0, ops[1..]);
    }
  }

  /** And the recorder at index n + k is the one the k-th accepted creation made, with the
      name, length and mode it asked for. */
  lemma {:induction false} IndexNamesCreation<S, L>(step: (S, L) -> S, reg: seq<Entry<S>>, ops: seq<Op<S, L>>, k: nat)
    requires Valid(reg) && |reg| + k < |PerformAll(step, reg, ops)|
    ensures k < |Accepts(ops)| && Accepts(ops)[k].Create?
    ensures var e, op := PerformAll(step, reg, ops)[|reg| + k], Accepts(ops)[k];
            e.name == op.name && e.length == op.length && e.continuous == op.continuous
    decreases |ops|
  {
    var reg' := Perform(step, reg, ops[0]).0;
    AsManyAsFit(step, reg, ops);
    AcceptsAreAccepted(ops, k);
    if |reg'| == |reg| {
      AsManyAsFit(step, reg', ops[1..]);
      IndexNamesCreation(step, reg', ops[1..], k);
    } else if k > 0 {
      IndexNamesCreation(step, reg', ops[1..], k - 1);
    } else {
      RecordersAreIndependent(step, reg', ops[1..], |reg|);
    }
  }

  /** The answer to a creation is the index of the new recorder, or 255 and no change; 255
      is never an index. */
  lemma AnswersAreIndices<S, L>(step: (S, L) -> S, reg: seq<Entry<S>>, op: Op<S, L>)
    requires Valid(reg) && op.Create?
    ensures var (reg', i) := Perform(step, reg, op);
            && (i == NO_INDEX <==> !GoodName(op.name) || |reg| == MAX_CUSTOM_RECORDERS)
            && (i == NO_INDEX ==> reg' == reg)
            && (i != NO_INDEX ==> i == |reg| && |reg'| == i + 1 && reg'[i] == NewEntry(op) && reg'[..i] == reg)
            && |reg'| <= MAX_CUSTOM_RECORDERS < NO_INDEX
  {
  }

  // ---- The registry of real recorders ----

  /** A step of the recorder's protocol where it is possible. */
  function Stepped(s: State, l: Label): State {
    if |s.cfg.available| <= 64 && Enabled(s, l) then Next(s, l) else s
  }

  // ---- One RPC thread for all recorders ----

  predicate IsRpcCall(l: Label) { l.CallStart? || l.CallStop? || l.SetMask? }

  predicate AllIdle(reg: seq<Entry<State>>) {
    forall i :: 0 <= i < |reg| ==> reg[i].recorder.rpc.Idle?
  }

  /** The process goes on; whatever is called is called when no other call is in progress,
      and a recorder's threads take the steps they can. */
  predicate Possible(reg: seq<Entry<State>>, op: Op<State, Label>) {
    && (forall i :: 0 <= i < |reg| ==> !reg[i].recorder.rpc.Terminated?)
    && (op.Create? || IsRpcCall(op.l) ==> AllIdle(reg))
    && (op.On? && op.index < |reg| ==>
          var s := reg[op.index].recorder; ValidConfig(s.cfg) && Enabled(s, op.l))
  }

  ghost predicate PossibleRun(reg: seq<Entry<State>>, ops: seq<Op<State, Label>>)
    requires Valid(reg)
    decreases |ops|
  {
    ops != [] ==> Possible(reg, ops[0]) && PossibleRun(Perform(Stepped, reg, ops[0]).0, ops[1..])
  }

  /** An ESC at the recorder of index k. */
  predicate EscapesAt(op: Op<State, Label>, k: nat) {
    op.On? && op.index == k && RecorderProgress.ReadsEscape(op.l)
  }

  /** A Stop that is lost on one recorder takes the server with it: as long as no ESC
      arrives there, no recorder is called or created any more, and it stays lost. */
  lemma {:induction false} LostStopBlocksServer(reg: seq<Entry<State>>, ops: seq<Op<State, Label>>, k: nat)
    requires Valid(reg) && k < |reg| && PossibleRun(reg, ops)
    requires RecorderTheorems.Inv(reg[k].recorder) && RecorderProgress.StopLost(reg[k].recorder)
    requires forall i :: 0 <= i < |ops| ==> !EscapesAt(ops[i], k)
    ensures forall i :: 0 <= i < |ops| ==> ops[i].On? && !IsRpcCall(ops[i].l)
    ensures RecorderProgress.StopLost(PerformAll(Stepped, reg, ops)[k].recorder)
    decreases |ops|
  {
    if ops == [] {
    } else {
      LostStopBlocksOne(reg, ops[0], k);
      assert forall i :: 0 <= i < |ops[1..]| ==> ops[1..][i] == ops[i + 1];
      LostStopBlocksServer(Perform(Stepped, reg, ops[0]).0, ops[1..], k);
      forall i | 0 <= i < |ops| ensures ops[i].On? && !IsRpcCall(ops[i].l) {
        if i > 0 { assert ops[i] == ops[1..][i - 1]; }
      }
    }
  }

  lemma LostStopBlocksOne(reg: seq<Entry<State>>, op: Op<State, Label>, k: nat)
    requires Valid(reg) && k < |reg| && Possible(reg, op) && !EscapesAt(op, k)
    requires RecorderTheorems.Inv(reg[k].recorder) && RecorderProgress.StopLost(reg[k].recorder)
    ensures op.On? && !IsRpcCall(op.l)
    ensures var s := Perform(Stepped, reg, op).0[k].recorder;
            RecorderTheorems.Inv(s) && RecorderProgress.StopLost(s)
  {
    var s := reg[k].recorder;
    assert !s.rpc.Idle?;
    if op.On? && op.index == k {
      RecorderTheorems.StepHolds(s, op.l);
      RecorderProgress.LostStep(s, op.l);
    }
  }

  // ---- Calls take effect ----

  /** What is done to a registered recorder, when it can be done, is its own next step. */
  lemma CallReachesRecorder(reg: seq<Entry<State>>, k: nat, l: Label)
    requires Valid(reg) && k < |reg| && Possible(reg, On(k, l))
    ensures var s := reg[k].recorder;
            ValidConfig(s.cfg) && Enabled(s, l) && Perform(Stepped, reg, On(k, l)).0[k].recorder == Next(s, l)
  {
  }

  /** The labels a run addresses to index k. */
  function LabelsAt(ops: seq<Op<State, Label>>, k: nat): seq<Label> {
    if ops == [] then []
    else (if ops[0].On? && ops[0].index == k then [ops[0].l] else []) + LabelsAt(ops[1..], k)
  }

  /** Over any possible run, a registered recorder makes a legal run of its own: the labels
      addressed to it, and nothing else. */
  lemma {:induction false} RegisteredRecorderRuns(reg: seq<Entry<State>>, ops: seq<Op<State, Label>>, k: nat)
    requires Valid(reg) && k < |reg| && PossibleRun(reg, ops) && ValidConfig(reg[k].recorder.cfg)
    ensures Legal(reg[k].recorder, LabelsAt(ops, k))
    ensures PerformAll(Stepped, reg, ops)[k].recorder == After(reg[k].recorder, LabelsAt(ops, k))
    decreases |ops|
  {
    if ops == [] {
    } else {
      var s, ls := reg[k].recorder, LabelsAt(ops, k);
      var reg' := Perform(Stepped, reg, ops[0]).0;
      if ops[0].On? && ops[0].index == k {
        ConfigIsFixed(s, ops[0].l);
        assert reg'[k].recorder == Next(s, ops[0].l);
        RegisteredRecorderRuns(reg', ops[1..], k);
        assert ls[0] == ops[0].l && ls[1..] == LabelsAt(ops[1..], k);
      } else {
        assert reg'[k] == reg[k];
        RegisteredRecorderRuns(reg', ops[1..], k);
        assert ls == LabelsAt(ops[1..], k);
      }
    }
  }

  /** The new recorder is a constructed one of the length and mode asked for. */
  predicate CreatesConstructed(op: Op<State, Label>) {
    op.Create? ==>
      && |op.initial.cfg.available| <= 64 && op.initial.clock >= 0
      && op.initial == Init(Config(op.initial.cfg.available, StoredLength(op.length), op.continuous), op.initial.clock)
  }

  ghost predicate AllReachable(reg: seq<Entry<State>>) {
    forall i :: 0 <= i < |reg| ==> Reachable(reg[i].recorder)
  }

  /** So what is proved of every reachable recorder holds of every registered one. */
  lemma {:induction false} RegisteredAreReachable(reg: seq<Entry<State>>, ops: seq<Op<State, Label>>)
    requires Valid(reg) && AllReachable(reg) && PossibleRun(reg, ops)
    requires forall i :: 0 <= i < |ops| ==> CreatesConstructed(ops[i])
    ensures AllReachable(PerformAll(Stepped, reg, ops))
    decreases |ops|
  {
    if ops == [] {
    } else {
      ReachableStep(reg, ops[0]);
      assert forall i :: 0 <= i < |ops[1..]| ==> ops[1..][i] == ops[i + 1];
      RegisteredAreReachable(Perform(Stepped, reg, ops[0]).0, ops[1..]);
    }
  }

  lemma ReachableStep(reg: seq<Entry<State>>, op: Op<State, Label>)
    requires Valid(reg) && AllReachable(reg) && Possible(reg, op) && CreatesConstructed(op)
    ensures AllReachable(Perform(Stepped, reg, op).0)
  {
    if op.Create? {
      InitIsReachable(op.initial);
    } else if op.index < |reg| {
      NextIsReachable(reg[op.index].recorder, op.l);
    }
  }

  lemma InitIsReachable(s: State)
    requires ValidConfig(s.cfg) && s.clock >= 0 && s == Init(s.cfg, s.clock)
    ensures Reachable(s)
  {
    var now: nat := s.clock;
    assert Legal(Init(s.cfg, now), []) && After(Init(s.cfg, now), []) == s;
  }

  lemma NextIsReachable(s: State, l: Label)
    requires Reachable(s) && ValidConfig(s.cfg) && Enabled(s, l)
    ensures Reachable(Next(s, l))
  {
    var cfg, now: nat, ls :|
      ValidConfig(cfg) && Legal(Init(cfg, now), ls) && After(Init(cfg, now), ls) == s;
    var ls', t := RecorderProgress.Extend(Init(cfg, now), ls, s, l);
  }

  // ---- Names ----

  /** The part occurs somewhere in the name. */
  ghost predicate Contains(name: string, part: string) {
    exists before, after :: name == before + part + after
  }

  lemma ContainsAt(name: string, part: string, i: nat)
    requires i + |part| <= |name| && name[i..i + |part|] == part
    ensures Contains(name, part)
  {
    assert name == name[..i] + part + name[i + |part|..];
  }

  lemma GoodNameIff(name: string)
    ensures GoodName(name) <==> !Contains(name, "/") && !Contains(name, "..")
  {
    if '/' in name {
      var i :| 0 <= i < |name| && name[i] == '/';
      ContainsAt(name, "/", i);
    }
    if HasDotDot(name) {
      var i :| 0 <= i < |name| - 1 && name[i] == '.' && name[i + 1] == '.';
      ContainsAt(name, "..", i);
    }
    if Contains(name, "/") {
      var before, after :| name == before + "/" + after;
      assert name[|before|] == '/';
    }
    if Contains(name, "..") {
      var before, after :| name == before + ".." + after;
      assert name[|before|] == '.' && name[|before| + 1] == '.';
    }
  }

  /** A name with a slash or two dots anywhere is answered 255, any other makes a recorder
      while there are fewer than twenty. */
  lemma NamesDecide<S, L>(step: (S, L) -> S, reg: seq<Entry<S>>, op: Op<S, L>)
    requires Valid(reg) && op.Create?
    ensures Perform(step, reg, op) ==
            if |reg| < 20 && !Contains(op.name, "/") && !Contains(op.name, "..") then
              (reg + [Entry(op.name, op.length, op.continuous, op.initial)], |reg|)
            else (reg, 255)
  {
    GoodNameIff(op.name);
  }

  // ---- One call at a time ----

  /** No two recorders are in a call at the same time. */
  predicate OneCall(reg: seq<Entry<State>>) {
    forall i, j :: 0 <= i < j < |reg| ==> reg[i].recorder.rpc.Idle? || reg[j].recorder.rpc.Idle?
  }

  lemma OneCallStep(reg: seq<Entry<State>>, op: Op<State, Label>)
    requires Valid(reg) && OneCall(reg) && Possible(reg, op)
    requires op.Create? ==> op.initial.rpc.Idle?
    ensures OneCall(Perform(Stepped, reg, op).0)
  {
    if op.On? && op.index < |reg| {
      var s := reg[op.index].recorder;
      assert !IsRpcCall(op.l) && s.rpc.Idle? ==> Next(s, op.l).rpc.Idle?;
    }
  }

  class CustomRecorders {
    var entries: seq<Entry<State>>

    constructor ()
      ensures entries == []
    {
      entries := [];
    }

    /** createCustomRecorder, the new recorder finding these devices at this time */
    method CreateCustomRecorder(name: string, length: uint32, continuous: bool, available: DeviceList, now: nat)
      returns (index: nat)
      requires Valid(entries)
      modifies this
      ensures var initial := Init(Config(available, StoredLength(length), continuous), now);
              (entries, index) == Perform(Stepped, old(entries), Create(name, length, continuous, initial))
    {
      if '/' in name || HasDotDot(name) { return NO_INDEX; }
      if |entries| < MAX_CUSTOM_RECORDERS {
        var initial := Init(Config(available, StoredLength(length), continuous), now);
        entries := entries + [Entry(name, length, continuous, initial)];
        return |entries| - 1;
      }
      return NO_INDEX;
    }

    /** The handlers that pass a call on to the recorder at an index, if there is one. */
    method CallRecorder(index: nat, l: Label)
      requires Valid(entries)
      modifies this
      ensures entries == Perform(Stepped, old(entries), On(index, l)).0
    {
      if index < |entries| {
        entries := entries[index := entries[index].(recorder := Stepped(entries[index].recorder, l))];
      }
    }
  }
}
