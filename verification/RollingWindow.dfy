// What the buffer and the dumps contain: the deque popped from the front is exactly the
// part of the full history that no trim pass condemns.
module RollingWindow {
  import opened InputEvents
  import opened RecorderProtocol
  import opened RecorderSafety

  /** The pass condemns the i-th record ever pushed: it was there, and it was older than
      the cutoff or had at least FILE_MAX_LINES newer records behind it. */
  ghost predicate Condemns(p: Pass, h: seq<InputRecord>, i: nat) {
    i < p.len <= |h| && (h[i].tsAbs < p.cutoff || (p.capped && i + FILE_MAX_LINES < p.len))
  }

  ghost predicate CondemnedBy(ps: seq<Pass>, h: seq<InputRecord>, i: nat) {
    exists k :: 0 <= k < |ps| && Condemns(ps[k], h, i)
  }

  /** The trim loop in progress, as the pass it will be. */
  function CurrentPass(s: State): seq<Pass> {
    if s.buf.TrimHeld? then [Pass(s.buf.cutoff, true, |s.log.hist|, s.log.trimAt)]
    else if s.buf.FinalHeld? then [FinalPass(s.buf.stopRead, s.cfg.length, |s.log.hist|)]
    else []
  }

  ghost predicate PassesBounded(g: Log) {
    forall k :: 0 <= k < |g.passes| ==> g.passes[k].len <= |g.hist|
  }

  /** The buffer is the history without its first `evicted` records; a record is gone only
      if a pass condemned it, and every record condemned by a completed pass is gone. */
  ghost predicate WindowInv(s: State) {
    && s.log.evicted <= |s.log.hist|
    && s.mem.inputBuf == s.log.hist[s.log.evicted..]
    && PassesBounded(s.log)
    && (forall i: nat :: CondemnedBy(s.log.passes, s.log.hist, i) ==> i < s.log.evicted)
    && (forall i: nat :: i < s.log.evicted ==> CondemnedBy(s.log.passes + CurrentPass(s), s.log.hist, i))
  }

  lemma CondemnedAppend(ps: seq<Pass>, p: Pass, h: seq<InputRecord>, i: nat)
    ensures CondemnedBy(ps + [p], h, i) <==> CondemnedBy(ps, h, i) || Condemns(p, h, i)
  {
    if CondemnedBy(ps, h, i) {
      var k :| 0 <= k < |ps| && Condemns(ps[k], h, i);
      assert (ps + [p])[k] == ps[k];
    }
    if Condemns(p, h, i) { assert (ps + [p])[|ps|] == p; }
  }

  /** A push does not change the verdict on older records, and condemns nothing. */
  lemma PushKeepsVerdict(ps: seq<Pass>, h: seq<InputRecord>, r: InputRecord, i: nat)
    requires forall k :: 0 <= k < |ps| ==> ps[k].len <= |h|
    ensures CondemnedBy(ps, h + [r], i) <==> CondemnedBy(ps, h, i)
  {
    forall k | 0 <= k < |ps| ensures Condemns(ps[k], h + [r], i) <==> Condemns(ps[k], h, i) {
      if i < |h| { assert (h + [r])[i] == h[i]; }
    }
  }

  lemma WindowPush(s: State, s': State, r: InputRecord)
    requires WindowInv(s) && CurrentPass(s) == [] == CurrentPass(s')
    requires s'.log == s.log.(hist := s.log.hist + [r])
    requires s'.mem == s.mem.(inputBuf := s.mem.inputBuf + [r])
    ensures WindowInv(s')
  {
    forall i: nat
      ensures CondemnedBy(s.log.passes, s'.log.hist, i) <==> CondemnedBy(s.log.passes, s.log.hist, i)
    {
      PushKeepsVerdict(s.log.passes, s.log.hist, r, i);
    }
    assert s.log.passes + [] == s.log.passes;
  }

  lemma WindowPop(s: State, s': State, p: Pass)
    requires WindowInv(s) && CurrentPass(s) == [p] == CurrentPass(s')
    requires |s.mem.inputBuf| > 0 && Condemns(p, s.log.hist, s.log.evicted)
    requires s'.log == s.log.(evicted := s.log.evicted + 1)
    requires s'.mem == s.mem.(inputBuf := s.mem.inputBuf[1..])
    ensures WindowInv(s')
  {
    CondemnedAppend(s.log.passes, p, s.log.hist, s.log.evicted);
  }

  lemma WindowPassDone(s: State, s': State, p: Pass)
    requires WindowInv(s) && CurrentPass(s) == [p] && CurrentPass(s') == []
    requires p.len == |s.log.hist|
    requires forall i: nat :: Condemns(p, s.log.hist, i) ==> i < s.log.evicted
    requires s'.log == s.log.(passes := s.log.passes + [p]) && s'.mem == s.mem
    ensures WindowInv(s')
  {
    forall i: nat | CondemnedBy(s'.log.passes, s.log.hist, i) ensures i < s.log.evicted {
      CondemnedAppend(s.log.passes, p, s.log.hist, i);
    }
    assert s'.log.passes + [] == s'.log.passes;
  }

  /** Where the loop stops, nothing that remains is condemned: the head is young enough,
      so with ordered time stamps everything behind it is. */
  lemma LoopExitLeavesNothingCondemned(s: State, p: Pass, i: nat)
    requires TimeInv(s) && WindowInv(s) && p.len == |s.log.hist|
    requires if p.capped then !PeriodicPops(s.mem.inputBuf, p.cutoff) else !FinalPops(s.mem.inputBuf, p.cutoff)
    requires Condemns(p, s.log.hist, i)
    ensures i < s.log.evicted
  {
    var h, e := s.log.hist, s.log.evicted;
    assert h[i] == Seen(s)[i];
    assert e < |h| ==> s.mem.inputBuf[0] == h[e] == Seen(s)[e];
  }

  lemma WindowTrimStep(s: State)
    requires TimeInv(s) && WindowInv(s) && (s.buf.TrimHeld? || s.buf.FinalHeld?)
    ensures WindowInv(BufNext(s, false))
  {
    var s', p := BufNext(s, false), CurrentPass(s)[0];
    if s'.log.passes == s.log.passes {
      assert s.mem.inputBuf[0] == s.log.hist[s.log.evicted];
      WindowPop(s, s', p);
    } else {
      forall i: nat | Condemns(p, s.log.hist, i) ensures i < s.log.evicted {
        LoopExitLeavesNothingCondemned(s, p, i);
      }
      WindowPassDone(s, s', p);
    }
  }

  /** Steps that leave buffer, history and passes alone. */
  predicate WindowUntouched(s: State, s': State) {
    && s'.mem.inputBuf == s.mem.inputBuf && s'.log.hist == s.log.hist
    && s'.log.evicted == s.log.evicted && s'.log.passes == s.log.passes
    && (CurrentPass(s) == [] || CurrentPass(s') == CurrentPass(s))
  }

  lemma WindowUntouchedStep(s: State, s': State)
    requires WindowInv(s) && WindowUntouched(s, s')
    ensures WindowInv(s')
  {
    if CurrentPass(s') != CurrentPass(s) {
      forall i: nat | i < s.log.evicted
        ensures CondemnedBy(s.log.passes + CurrentPass(s'), s.log.hist, i)
      {
        assert s.log.passes + [] == s.log.passes;
        CondemnedAppend(s.log.passes, CurrentPass(s')[0], s.log.hist, i);
      }
    }
  }

  predicate IsPush(s: State, l: Label) {
    s.rec.PushHeld? && l.RecStep?
  }

  predicate IsTrim(s: State, l: Label) {
    (s.buf.TrimHeld? || s.buf.FinalHeld?) && l.BufStep?
  }

  /** Only a push or a trim loop touches the window. */
  lemma WindowCases(s: State, l: Label)
    requires ThreadInv(s) && LockInv(s) && Enabled(s, l)
    ensures IsPush(s, l) || IsTrim(s, l) || WindowUntouched(s, Next(s, l))
  {
    match l
    case RpcStep =>
    case RecStep(io) =>
    case BufStep(timeout) =>
    case _ =>
  }

  lemma WindowStep(s: State, l: Label)
    requires ThreadInv(s) && LockInv(s) && TimeInv(s) && WindowInv(s) && Enabled(s, l)
    ensures WindowInv(Next(s, l))
  {
    if IsPush(s, l) {
      WindowPush(s, Next(s, l), s.rec.r);
    } else if IsTrim(s, l) {
      WindowTrimStep(s);
    } else {
      WindowCases(s, l);
      WindowUntouchedStep(s, Next(s, l));
    }
  }

  // ---- The instants of the passes ----

  predicate AtFinalPass(b: BufPc) { b.FinalWant? || b.FinalHeld? || b.DumpHeld? }

  ghost predicate PassesTimed(ps: seq<Pass>, length: int, now: int) {
    forall k :: 0 <= k < |ps| ==> ps[k].cutoff == ps[k].at - length && ps[k].at <= now
  }

  /** Every pass, also the one that is coming, cuts off exactly the window's length before an
      instant that is not in the future. */
  ghost predicate PassTimeInv(s: State) {
    && PassesTimed(s.log.passes, s.cfg.length, s.clock)
    && (s.buf.TrimWant? || s.buf.TrimHeld? ==>
          s.buf.cutoff == s.log.trimAt - s.cfg.length && s.log.trimAt <= s.clock)
    && (AtFinalPass(s.buf) ==> s.buf.stopRead <= s.clock)
  }

  predicate ReadsPassTime(s: State, l: Label) {
    l.BufStep? && (s.buf.TrimClock? || s.buf.ReadStopTime? || AtTrimLoop(s.buf))
  }

  predicate AtTrimLoop(b: BufPc) { b.TrimHeld? || b.FinalHeld? }

  /** No other step concerns the instants. */
  lemma PassTimeCases(s: State, l: Label)
    requires ThreadInv(s) && Enabled(s, l) && !ReadsPassTime(s, l)
    ensures var s' := Next(s, l);
            && s'.log.passes == s.log.passes && s'.log.trimAt == s.log.trimAt
            && s'.cfg == s.cfg && s.clock <= s'.clock
            && (s'.buf.TrimHeld? ==> s'.buf == s.buf || s.buf == TrimWant(s'.buf.cutoff))
            && (s'.buf.TrimWant? ==> s'.buf == s.buf)
            && (AtFinalPass(s'.buf) ==> AtFinalPass(s.buf) && s'.buf.stopRead == s.buf.stopRead)
  {
    match l
    case RpcStep =>
    case RecStep(io) =>
    case BufStep(timeout) =>
    case _ =>
  }

  lemma PassTimeStep(s: State, l: Label)
    requires ThreadInv(s) && ClockInv(s) && PassTimeInv(s) && Enabled(s, l)
    ensures PassTimeInv(Next(s, l))
  {
    if !ReadsPassTime(s, l) { PassTimeCases(s, l); }
  }

  // ---- Dumps ----

  /** The final pass that precedes a dump. */
  function FinalPass(stopRead: int, length: int, len: nat): Pass {
    Pass(stopRead - length, false, len, stopRead)
  }

  /** What a dump is, in terms of the history g and the number of milliseconds kept. */
  ghost predicate DumpSound(d: Dump, g: Log, length: int) {
    && d.first <= d.end <= |g.hist| && d.body == g.hist[d.first..d.end]
    && 0 < d.passes <= |g.passes|
    && g.passes[d.passes - 1] == FinalPass(d.stopRead, length, d.end)
    && (forall i: nat :: CondemnedBy(g.passes[..d.passes], g.hist, i) <==> i < d.first)
    && d.header == Header(d.stopRead, d.stopReadAgain, d.startTime, length)
    && 0 <= d.startTime && d.base <= d.end && (d.session == 1 ==> d.base == 0)
    && (forall i :: d.base <= i < d.end ==> d.startTime <= g.hist[i].tsAbs)
  }

  ghost predicate DumpsInOrder(g: Log) {
    && (forall k :: 0 <= k < |g.dumps| ==> g.dumps[k].first <= g.evicted)
    && (forall k, m :: 0 <= k < m < |g.dumps| ==>
          g.dumps[k].first <= g.dumps[m].first && g.dumps[k].end <= g.dumps[m].end)
  }

  ghost predicate DumpInv(s: State) {
    && (s.buf.DumpHeld? ==>
          && s.log.passes != []
          && s.log.passes[|s.log.passes| - 1] == FinalPass(s.buf.stopRead, s.cfg.length, |s.log.hist|))
    && (forall k :: 0 <= k < |s.log.dumps| ==> DumpSound(s.log.dumps[k], s.log, s.cfg.length))
    && DumpsInOrder(s.log)
  }

  /** History and passes only grow, so what was said of a dump stays true. */
  lemma DumpStaysSound(d: Dump, g: Log, g': Log, length: int)
    requires DumpSound(d, g, length) && PassesBounded(g)
    requires g.hist <= g'.hist && g.passes <= g'.passes
    ensures DumpSound(d, g', length)
  {
    var ps := g.passes[..d.passes];
    assert g'.passes[..d.passes] == ps;
    forall i: nat ensures CondemnedBy(ps, g'.hist, i) <==> CondemnedBy(ps, g.hist, i) {
      forall k | 0 <= k < |ps| ensures Condemns(ps[k], g'.hist, i) <==> Condemns(ps[k], g.hist, i) {
        assert ps[k] == g.passes[k];
        if i < ps[k].len { assert g'.hist[i] == g.hist[i]; }
      }
    }
    assert d.body == g'.hist[d.first..d.end];
  }

  lemma LogGrows(s: State, l: Label)
    requires ThreadInv(s) && Enabled(s, l)
    ensures s.log.hist <= Next(s, l).log.hist && s.log.passes <= Next(s, l).log.passes
    ensures s.log.evicted <= Next(s, l).log.evicted
    ensures !(s.buf.DumpHeld? && l.BufStep?) ==> Next(s, l).log.dumps == s.log.dumps
  {
    match l
    case RpcStep =>
    case RecStep(io) =>
    case BufStep(timeout) =>
    case _ =>
  }

  lemma NewDumpIsSound(s: State)
    requires ThreadInv(s) && TimeInv(s) && WindowInv(s) && DumpInv(s) && s.buf.DumpHeld?
    ensures var g := BufNext(s, false).log;
            DumpSound(g.dumps[|g.dumps| - 1], g, s.cfg.length)
  {
    var g := BufNext(s, false).log;
    var d := g.dumps[|g.dumps| - 1];
    assert g.passes[..d.passes] == g.passes;
    assert g.passes + CurrentPass(s) == g.passes;
    assert d.body == g.hist[d.first..d.end];
    assert forall i: nat :: CondemnedBy(g.passes, g.hist, i) <==> i < d.first;
    forall i | d.base <= i < d.end ensures d.startTime <= g.hist[i].tsAbs {
      assert Seen(s)[s.log.base..][i - s.log.base] == g.hist[i];
    }
  }

  lemma FinalPassRemembered(s: State, l: Label)
    requires ThreadInv(s) && LockInv(s) && DumpInv(s) && Enabled(s, l) && Next(s, l).buf.DumpHeld?
    ensures var s' := Next(s, l);
            && s'.log.passes != []
            && s'.log.passes[|s'.log.passes| - 1] == FinalPass(s'.buf.stopRead, s'.cfg.length, |s'.log.hist|)
  {
    match l
    case RpcStep =>
    case RecStep(io) =>
    case BufStep(timeout) =>
    case _ =>
  }

  lemma DumpStep(s: State, l: Label)
    requires ThreadInv(s) && LockInv(s) && TimeInv(s) && WindowInv(s) && DumpInv(s) && Enabled(s, l)
    ensures DumpInv(Next(s, l))
  {
    var s' := Next(s, l);
    ConfigIsFixed(s, l);
    LogGrows(s, l);
    if s'.buf.DumpHeld? { FinalPassRemembered(s, l); }
    forall k | 0 <= k < |s.log.dumps| ensures DumpSound(s.log.dumps[k], s'.log, s.cfg.length) {
      DumpStaysSound(s.log.dumps[k], s.log, s'.log, s.cfg.length);
    }
    if s.buf.DumpHeld? && l.BufStep? {
      NewDumpIsSound(s);
    }
  }
}
