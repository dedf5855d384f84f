// Recording, then playing the file back through the server.
module Replay {
  import opened InputEvents
  import opened RecorderProtocol
  import RecorderTheorems
  import RollingWindow
  import opened RecordingFormat
  import opened InputServer

  /** The pass-through request a line of a recording stands for. */
  function RequestOf(e: RecordedLine): Request {
    PassThrough(e.dev % 0x1_0000_0000, e.evType % 0x1_0000_0000, e.code % 0x1_0000_0000, e.value)
  }

  function RequestsOf(es: seq<RecordedLine>): seq<Request> {
    if es == [] then [] else RequestsOf(es[..|es| - 1]) + [RequestOf(es[|es| - 1])]
  }

  /** The recorded events of one kind of device, in order. */
  function EventsOfKind(rs: seq<InputRecord>, d: nat): seq<Event> {
    if rs == [] then []
    else
      var r := rs[|rs| - 1];
      EventsOfKind(rs[..|rs| - 1], d) + if r.dev.Number() == d then [r.event] else []
  }

  lemma {:induction false} AllReducedAt(rs: seq<InputRecord>, i: nat)
    requires NonNegativeTimes(rs) && i < |rs|
    ensures |AllReduced(rs)| == |rs| && AllReduced(rs)[i] == Reduced(rs[i])
  {
    if i == 0 {
      if |rs| > 1 { AllReducedAt(rs[1..], 0); }
    } else {
      AllReducedAt(rs[1..], i - 1);
    }
  }

  lemma AllReducedPrefix(rs: seq<InputRecord>, n: nat)
    requires NonNegativeTimes(rs) && n + 1 == |rs|
    ensures |AllReduced(rs)| == |rs| && AllReduced(rs)[n] == Reduced(rs[n])
    ensures AllReduced(rs)[..n] == AllReduced(rs[..n])
  {
    AllReducedAt(rs, n);
    if n > 0 { AllReducedAt(rs[..n], 0); }
    forall i | 0 <= i < n ensures AllReduced(rs)[i] == AllReduced(rs[..n])[i] {
      AllReducedAt(rs, i);
      AllReducedAt(rs[..n], i);
    }
  }

  /** The recorder's numbers for devices are the server's, and no 16-bit field loses bits:
      replaying gives each device its recorded events. */
  lemma {:induction false} ReplayGivesRecordedEvents(w: Setup, rs: seq<InputRecord>, d: nat)
    requires NonNegativeTimes(rs) && d < MAX_DEVICES
    ensures EventsFor(w, RequestsOf(AllReduced(rs)), d) == EventsOfKind(rs, d)
  {
    if rs == [] {
      assert AllReduced(rs) == [];
    } else {
      var n := |rs| - 1;
      AllReducedPrefix(rs, n);
      ReplayGivesRecordedEvents(w, rs[..n], d);
      ReplayOneMore(w, AllReduced(rs), n, d);
      OneLine(w, rs[n], d);
    }
  }

  lemma ReplayOneMore(w: Setup, es: seq<RecordedLine>, n: nat, d: nat)
    requires n + 1 == |es|
    ensures EventsFor(w, RequestsOf(es), d) == EventsFor(w, RequestsOf(es[..n]), d)
              + if TargetOf(RequestOf(es[n])) == d then Events(w, RequestOf(es[n])) else []
  {
    var qs := RequestsOf(es);
    assert qs[..|qs| - 1] == RequestsOf(es[..n]);
  }

  lemma OneLine(w: Setup, r: InputRecord, d: nat)
    requires r.tsAbs >= 0
    ensures TargetOf(RequestOf(Reduced(r))) == r.dev.Number()
    ensures Events(w, RequestOf(Reduced(r))) == [r.event]
  {
  }

  /** Of known devices nothing is dropped: every record is played on one of the four. */
  lemma {:induction false} NothingIsDropped(rs: seq<InputRecord>)
    requires forall i :: 0 <= i < |rs| ==> rs[i].dev != Unknown
    ensures |EventsOfKind(rs, 0)| + |EventsOfKind(rs, 1)| + |EventsOfKind(rs, 2)| + |EventsOfKind(rs, 3)| == |rs|
  {
    if rs == [] {
    } else {
      NothingIsDropped(rs[..|rs| - 1]);
    }
  }

  /** A file written by the recorder, read back and played through the server, writes to
      every open virtual device exactly the recorded events of its kind, in order. */
  lemma FileReplays(w: Setup, instant: nat, rs: seq<InputRecord>, d: nat)
    requires NonNegativeTimes(rs) && DistinctOpen(w) && d < MAX_DEVICES && w.fds[d] >= 0
    ensures var file := ReadFile(DumpText(instant, rs));
            && file.Some?
            && Stream(WrittenAll(w, RequestsOf(file.value.1)), w.fds[d]) == EventsOfKind(rs, d)
  {
    FileRoundTrip(instant, rs);
    ReplayGivesRecordedEvents(w, rs, d);
    DeviceStream(w, RequestsOf(AllReduced(rs)), d);
  }

  /** From the devices to the devices: the lines of any dump of any run, replayed, give
      each virtual device the events of its kind in the window of the history that the dump
      is.  The whole file can be read, with the same lines, exactly if its header is not
      before the epoch or is whole days before it. */
  lemma DumpReplays(s: State, k: nat, w: Setup, d: nat)
    requires Reachable(s) && k < |s.log.dumps|
    requires DistinctOpen(w) && d < MAX_DEVICES && w.fds[d] >= 0
    ensures var m := s.log.dumps[k];
            var lines := ReadBody(Concat(Lines(m.body)));
            var file := ReadFile(DumpText(m.header, m.body));
            && m.passes <= |s.log.passes| && m.end <= |s.log.hist|
            && (forall j :: 0 <= j < m.passes ==> s.log.passes[j].len <= |s.log.hist|)
            && RecorderTheorems.WindowStart(s.log.passes[..m.passes], s.log.hist) <= m.end
            && lines.Some?
            && Stream(WrittenAll(w, RequestsOf(lines.value)), w.fds[d]) ==
               EventsOfKind(s.log.hist[RecorderTheorems.WindowStart(s.log.passes[..m.passes], s.log.hist)..m.end], d)
            && (file.Some? <==> m.header >= 0 || m.header % DAY == 0)
            && (file.Some? ==> file.value.1 == lines.value)
  {
    RecorderTheorems.DumpIsExactWindow(s, k);
    var m := s.log.dumps[k];
    DumpedTimes(s, k);
    ReadBodyOf(m.body);
    ReplayGivesRecordedEvents(w, m.body, d);
    DeviceStream(w, RequestsOf(AllReduced(m.body)), d);
    FileReadsIff(m.header, m.body);
  }

  lemma DumpedTimes(s: State, k: nat)
    requires Reachable(s) && k < |s.log.dumps|
    ensures NonNegativeTimes(s.log.dumps[k].body)
  {
    RecorderTheorems.DumpsAreSound(s, k);
    var m := s.log.dumps[k];
    forall i | 0 <= i < |m.body| ensures m.body[i].tsAbs >= 0 {
      RecorderTheorems.TimesAreNatural(s, m.first + i);
    }
  }

  /** A session shorter than the window dumps the file that streaming would have written
      of what it has pushed so far exactly if the passes so far condemned all records of
      earlier sessions and none of its own. */
  lemma ShortSessionDumpsStreamIff(s: State, k: nat)
    requires Reachable(s) && k < |s.log.dumps|
    requires s.log.dumps[k].stopReadAgain - s.log.dumps[k].startTime < s.cfg.length
    ensures var m, g := s.log.dumps[k], s.log;
            && m.base <= m.end <= |g.hist| && m.passes <= |g.passes|
            && (DumpText(m.header, m.body) == StreamText(m.startTime, g.hist[m.base..m.end])
                <==> (forall i: nat :: i < m.end ==>
                        (RollingWindow.CondemnedBy(g.passes[..m.passes], g.hist, i) <==> i < m.base)))
  {
    var m, g := s.log.dumps[k], s.log;
    RecorderTheorems.DumpsAreSound(s, k);
    forall i | 0 <= i < |g.hist| ensures g.hist[i].tsAbs >= 0 {
      RecorderTheorems.TimesAreNatural(s, i);
    }
    SuffixTexts(m.startTime, g.hist, m.first, m.base, m.end);
    SessionIsWindowIff(m, g, s.cfg.length);
  }

  lemma SessionIsWindowIff(m: Dump, g: Log, length: int)
    requires RollingWindow.DumpSound(m, g, length)
    ensures m.first == m.base <==>
            forall i: nat :: i < m.end ==>
              (RollingWindow.CondemnedBy(g.passes[..m.passes], g.hist, i) <==> i < m.base)
  {
    if m.first != m.base {
      var i: nat := if m.first < m.base then m.first else m.base;
      assert RollingWindow.CondemnedBy(g.passes[..m.passes], g.hist, i) <==> i < m.first;
    }
  }

  /** The two writers agree on suffixes of a history only if these are the same. */
  lemma SuffixTexts(start: nat, h: seq<InputRecord>, a: nat, b: nat, end: nat)
    requires NonNegativeTimes(h) && a <= end && b <= end <= |h|
    ensures DumpText(start, h[a..end]) == StreamText(start, h[b..end]) <==> a == b
  {
    if a == b {
      WritersAgree(start, h[a..end]);
    } else {
      TextsDiffer(start, h[a..end], h[b..end]);
    }
  }

  lemma TextsDiffer(start: nat, rs: seq<InputRecord>, qs: seq<InputRecord>)
    requires NonNegativeTimes(rs) && NonNegativeTimes(qs) && |rs| != |qs|
    ensures DumpText(start, rs) != StreamText(start, qs)
  {
    var t, u := DumpText(start, rs), DumpText(start, qs);
    WritersAgree(start, qs);
    FileRoundTrip(start, rs);
    FileRoundTrip(start, qs);
    if AllReduced(rs) == AllReduced(qs) { SameLength(rs, qs); }
    assert ReadFile(t) != ReadFile(u);
  }

  lemma SameLength(rs: seq<InputRecord>, qs: seq<InputRecord>)
    requires NonNegativeTimes(rs) && NonNegativeTimes(qs) && AllReduced(rs) == AllReduced(qs)
    ensures |rs| == |qs|
  {
    if rs != [] { AllReducedAt(rs, 0); }
    if qs != [] { AllReducedAt(qs, 0); }
  }
}
