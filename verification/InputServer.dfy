// The input handlers of the server: every request becomes events written to one of the
// four virtual devices, ended by a SYN_REPORT.
module InputServer {
  import opened Wrappers
  import opened Sequences
  import opened InputEvents
  import opened KeysymSearch
  import opened MultiTouch

  const VIRTUAL_MOUSE: nat := 0
  const VIRTUAL_KEYBOARD: nat := 1
  const VIRTUAL_TOUCHSCREEN: nat := 2
  const VIRTUAL_MULTI_TOUCHSCREEN: nat := 3
  const MAX_DEVICES: nat := 4

  /** The state fixed at construction: the descriptors (negative if not open), the keymap
      and the symbol names XKB knows (0 is NoSymbol). */
  datatype Setup = Setup(fds: seq<int>, keymap: Keymap, symbolOf: string -> uint32)

  predicate ValidSetup(w: Setup) { |w.fds| == MAX_DEVICES }

  /** One event written to one descriptor. */
  datatype Write = Write(fd: int, event: Event)

  datatype KeySpec = RawCode(code: uint16) | KeySym(sym: uint32) | KeyName(name: string)

  datatype Request =
    | MouseMove(relX: int, relY: int)
    | MouseClick(btn: uint16, pressed: bool)
    | KeyPress(key: KeySpec, pressed: bool)
    | SingleTouch(absX: int, absY: int, pressed: bool)
    | TouchList(touches: seq<Touch>)
    | PassThrough(device: uint32, evType: uint32, code: uint32, value: int)

  /** getDeviceFd */
  function DeviceFd(w: Setup, device: nat): int
    requires ValidSetup(w)
  {
    if device < MAX_DEVICES then w.fds[device] else -1
  }

  /** Assignment of an int to a 16-bit field. */
  function Low16(n: nat): (r: uint16)
    ensures (n - r) % 0x1_0000 == 0
  {
    n % 0x1_0000
  }

  function Flag(b: bool): int { if b then 1 else 0 }

  const SYN: Event := Event(EV_SYN, SYN_REPORT, 0)

  /** The code a key request asks for; None when there is nothing to press. */
  function CodeOf(w: Setup, key: KeySpec): Option<nat> {
    match key
    case RawCode(c) => Some(c)
    case KeySym(s) => CodeFor(w, s)
    case KeyName(name) => if w.symbolOf(name) == 0 then None else CodeFor(w, w.symbolOf(name))
  }

  function CodeFor(w: Setup, sym: uint32): Option<nat> {
    var c := Resolved(w.keymap, sym);
    if c == 0 then None else Some(c)
  }

  function TargetOf(q: Request): nat {
    match q
    case MouseMove(_, _) => VIRTUAL_MOUSE
    case MouseClick(_, _) => VIRTUAL_MOUSE
    case KeyPress(_, _) => VIRTUAL_KEYBOARD
    case SingleTouch(_, _, _) => VIRTUAL_TOUCHSCREEN
    case TouchList(_) => VIRTUAL_MULTI_TOUCHSCREEN
    case PassThrough(d, _, _, _) => d
  }

  /** What a request means as events. */
  function Events(w: Setup, q: Request): seq<Event> {
    match q
    case MouseMove(x, y) => [Event(EV_REL, REL_X, x), Event(EV_REL, REL_Y, y), SYN]
    case MouseClick(btn, pressed) => [Event(EV_KEY, btn, Flag(pressed)), SYN]
    case KeyPress(key, pressed) =>
      (match CodeOf(w, key)
       case None => []
       case Some(c) => [Event(EV_KEY, Low16(c), Flag(pressed)), SYN])
    case SingleTouch(x, y, pressed) =>
      (if x >= 0 then [Event(EV_ABS, ABS_X, x)] else [])
        + (if y >= 0 then [Event(EV_ABS, ABS_Y, y)] else [])
        + [Event(EV_KEY, BTN_TOUCH, Flag(pressed)), SYN]
    case TouchList(ts) => TouchFrame(ts)
    case PassThrough(_, t, c, v) => [Event(Low16(t), Low16(c), v)]
  }

  /** The events as writes; nothing can be written to a device that is not open. */
  function Writes(fd: int, es: seq<Event>): seq<Write> {
    if fd < 0 then [] else seq(|es|, i requires 0 <= i < |es| => Write(fd, es[i]))
  }

  function Written(w: Setup, q: Request): seq<Write>
    requires ValidSetup(w)
  {
    Writes(DeviceFd(w, TargetOf(q)), Events(w, q))
  }

  function WrittenAll(w: Setup, qs: seq<Request>): seq<Write>
    requires ValidSetup(w)
  {
    if qs == [] then [] else WrittenAll(w, qs[..|qs| - 1]) + Written(w, qs[|qs| - 1])
  }

  class TestRunnerServer {
    const w: Setup
    var log: seq<Write>          // everything the kernel was given, in order

    constructor (w: Setup)
      requires ValidSetup(w)
      ensures this.w == w && log == []
    {
      this.w := w;
      log := [];
    }

    method Emit(fd: int, evType: nat, code: nat, value: int)
      modifies this`log
      ensures log == old(log) + Writes(fd, [Event(Low16(evType), Low16(code), value)])
    {
      var event := Event(Low16(evType), Low16(code), value);
      if fd >= 0 {
        log := log + [Write(fd, event)];
      }
    }

    method HandleMouseMove(x: int, y: int)
      requires ValidSetup(w)
      modifies this`log
      ensures log == old(log) + Written(w, MouseMove(x, y))
    {
      Emit(DeviceFd(w, VIRTUAL_MOUSE), EV_REL, REL_X, x);
      Emit(DeviceFd(w, VIRTUAL_MOUSE), EV_REL, REL_Y, y);
      Emit(DeviceFd(w, VIRTUAL_MOUSE), EV_SYN, SYN_REPORT, 0);
    }

    method HandleMouseClick(btn: uint16, pressed: bool)
      requires ValidSetup(w)
      modifies this`log
      ensures log == old(log) + Written(w, MouseClick(btn, pressed))
    {
      Emit(DeviceFd(w, VIRTUAL_MOUSE), EV_KEY, btn, Flag(pressed));
      Emit(DeviceFd(w, VIRTUAL_MOUSE), EV_SYN, SYN_REPORT, 0);
    }

    method HandleKeyPress(key: KeySpec, pressed: bool)
      requires ValidSetup(w)
      modifies this`log
      ensures log == old(log) + Written(w, KeyPress(key, pressed))
    {
      var code := 0;
      match key {
        case RawCode(c) =>
          code := c;
        case KeySym(s) =>
          code := ResolveKeysym(w.keymap, s);
          if code == 0 { return; }
        case KeyName(name) =>
          var s := w.symbolOf(name);
          if s == 0 { return; }
          code := ResolveKeysym(w.keymap, s);
          if code == 0 { return; }
      }
      Emit(DeviceFd(w, VIRTUAL_KEYBOARD), EV_KEY, code, Flag(pressed));
      Emit(DeviceFd(w, VIRTUAL_KEYBOARD), EV_SYN, SYN_REPORT, 0);
    }

    method HandleSingleTouch(x: int, y: int, pressed: bool)
      requires ValidSetup(w)
      modifies this`log
      ensures log == old(log) + Written(w, SingleTouch(x, y, pressed))
    {
      var fd := DeviceFd(w, VIRTUAL_TOUCHSCREEN);
      if x >= 0 { Emit(fd, EV_ABS, ABS_X, x); }
      if y >= 0 { Emit(fd, EV_ABS, ABS_Y, y); }
      Emit(fd, EV_KEY, BTN_TOUCH, Flag(pressed));
      Emit(fd, EV_SYN, SYN_REPORT, 0);
    }

    method EmitTouch(fd: int, t: Touch)
      modifies this`log
      ensures log == old(log) + Writes(fd, Encode(t))
    {
      Emit(fd, EV_ABS, ABS_MT_SLOT, t.slot);
      if t.trackingId != 0 { Emit(fd, EV_ABS, ABS_MT_TRACKING_ID, t.trackingId); }
      if t.trackingId >= 0 {
        Emit(fd, EV_ABS, ABS_MT_POSITION_X, t.x);
        Emit(fd, EV_ABS, ABS_MT_POSITION_Y, t.y);
      }
    }

    method HandleMultiTouch(ts: seq<Touch>)
      requires ValidSetup(w)
      modifies this`log
      ensures log == old(log) + Written(w, TouchList(ts))
    {
      var fd := DeviceFd(w, VIRTUAL_MULTI_TOUCHSCREEN);
      var i := 0;
      while i < |ts|
        invariant 0 <= i <= |ts|
        invariant log == old(log) + Writes(fd, EncodeAll(ts[..i]))
      {
        EmitTouch(fd, ts[i]);
        TouchesGrow(fd, ts, i);
        i := i + 1;
      }
      assert ts[..i] == ts;
      Emit(fd, EV_SYN, SYN_REPORT, 0);
      WritesConcat(fd, EncodeAll(ts), [SYN]);
    }

    method HandlePassThrough(device: uint32, evType: uint32, code: uint32, value: int)
      requires ValidSetup(w)
      modifies this`log
      ensures log == old(log) + Written(w, PassThrough(device, evType, code, value))
    {
      Emit(DeviceFd(w, device), evType, code, value);
    }

    method Serve(q: Request)
      requires ValidSetup(w)
      modifies this`log
      ensures log == old(log) + Written(w, q)
    {
      match q
      case MouseMove(x, y) => HandleMouseMove(x, y);
      case MouseClick(b, p) => HandleMouseClick(b, p);
      case KeyPress(k, p) => HandleKeyPress(k, p);
      case SingleTouch(x, y, p) => HandleSingleTouch(x, y, p);
      case TouchList(ts) => HandleMultiTouch(ts);
      case PassThrough(d, t, c, v) => HandlePassThrough(d, t, c, v);
    }

    /** The event loop over any sequence of requests. */
    method ServeAll(qs: seq<Request>)
      requires ValidSetup(w)
      modifies this`log
      ensures log == old(log) + WrittenAll(w, qs)
    {
      var i := 0;
      while i < |qs|
        invariant 0 <= i <= |qs|
        invariant log == old(log) + WrittenAll(w, qs[..i])
      {
        Serve(qs[i]);
        WrittenOneMore(old(log), w, qs, i);
        i := i + 1;
      }
      assert qs[..i] == qs;
    }
  }

  lemma WrittenOneMore(log: seq<Write>, w: Setup, qs: seq<Request>, i: nat)
    requires ValidSetup(w) && i < |qs|
    ensures log + WrittenAll(w, qs[..i]) + Written(w, qs[i]) == log + WrittenAll(w, qs[..i + 1])
  {
    assert qs[..i + 1][..i] == qs[..i];
    Regroup(log, WrittenAll(w, qs[..i]), Written(w, qs[i]));
  }

  lemma WritesConcat(fd: int, a: seq<Event>, b: seq<Event>)
    ensures Writes(fd, a + b) == Writes(fd, a) + Writes(fd, b)
  {
  }

  lemma TouchesGrow(fd: int, ts: seq<Touch>, i: nat)
    requires i < |ts|
    ensures Writes(fd, EncodeAll(ts[..i + 1])) == Writes(fd, EncodeAll(ts[..i])) + Writes(fd, Encode(ts[i]))
  {
    assert ts[..i + 1] == ts[..i] + [ts[i]];
    EncodeAllConcat(ts[..i], [ts[i]]);
    assert EncodeAll([ts[i]]) == Encode(ts[i]);
    WritesConcat(fd, EncodeAll(ts[..i]), Encode(ts[i]));
  }

  // ---- Streams and frames ----

  /** What a reader of one device receives. */
  function Stream(log: seq<Write>, fd: int): seq<Event> {
    if log == [] then []
    else
      var last := log[|log| - 1];
      Stream(log[..|log| - 1], fd) + if last.fd == fd then [last.event] else []
  }

  lemma {:induction false} StreamConcat(a: seq<Write>, b: seq<Write>, fd: int)
    ensures Stream(a + b, fd) == Stream(a, fd) + Stream(b, fd)
  {
    if b == [] {
      assert a + b == a;
    } else {
      var n := |b| - 1;
      StreamConcat(a, b[..n], fd);
      assert (a + b)[..|a + b| - 1] == a + b[..n];
    }
  }

  lemma {:induction false} StreamOfWrites(fd: int, es: seq<Event>, g: int)
    requires fd >= 0
    ensures Stream(Writes(fd, es), g) == if fd == g then es else []
  {
    var ws := Writes(fd, es);
    if es == [] {
      assert ws == [];
    } else {
      var n := |es| - 1;
      StreamOfWrites(fd, es[..n], g);
      assert ws[..n] == Writes(fd, es[..n]) && ws[n] == Write(fd, es[n]);
      var before := Stream(ws[..n], g);
      assert Stream(ws, g) == before + if fd == g then [es[n]] else [];
      if fd == g { assert before + [es[n]] == es; } else { assert before + [] == []; }
    }
  }

  /** The descriptors that are open are different from one another. */
  ghost predicate DistinctOpen(w: Setup) {
    ValidSetup(w) && forall i, j :: 0 <= i < j < MAX_DEVICES && w.fds[i] >= 0 ==> w.fds[i] != w.fds[j]
  }

  /** Events of the requests for device d, in order. */
  function EventsFor(w: Setup, qs: seq<Request>, d: nat): seq<Event> {
    if qs == [] then []
    else
      var q := qs[|qs| - 1];
      EventsFor(w, qs[..|qs| - 1], d) + if TargetOf(q) == d then Events(w, q) else []
  }

  /** A device receives the events of its own requests and nothing else. */
  lemma {:induction false} DeviceStream(w: Setup, qs: seq<Request>, d: nat)
    requires DistinctOpen(w) && d < MAX_DEVICES && w.fds[d] >= 0
    ensures Stream(WrittenAll(w, qs), w.fds[d]) == EventsFor(w, qs, d)
  {
    if qs == [] {
    } else {
      var n := |qs| - 1;
      DeviceStream(w, qs[..n], d);
      StreamConcat(WrittenAll(w, qs[..n]), Written(w, qs[n]), w.fds[d]);
      var fd := DeviceFd(w, TargetOf(qs[n]));
      if fd >= 0 { StreamOfWrites(fd, Events(w, qs[n]), w.fds[d]); }
    }
  }

  /** Nothing is written but to the open device a request is for; in particular nothing for
      a device that is not open or does not exist. */
  lemma {:induction false} OnlyOpenDevicesAreWritten(w: Setup, qs: seq<Request>, i: nat)
    requires ValidSetup(w) && i < |WrittenAll(w, qs)|
    ensures exists q :: q in qs && TargetOf(q) < MAX_DEVICES
                        && WrittenAll(w, qs)[i].fd == w.fds[TargetOf(q)] >= 0
  {
    var n := |qs| - 1;
    if i < |WrittenAll(w, qs[..n])| {
      OnlyOpenDevicesAreWritten(w, qs[..n], i);
    } else {
      assert qs[n] in qs;
    }
  }

  predicate IsFrame(f: seq<Event>) {
    f != [] && f[|f| - 1] == SYN && forall i :: 0 <= i < |f| - 1 ==> f[i].evType != EV_SYN
  }

  /** The stream cut after every SYN_REPORT; the events after the last one come second. */
  function Cut(acc: seq<Event>, es: seq<Event>): (seq<seq<Event>>, seq<Event>)
    decreases |es|
  {
    if es == [] then ([], acc)
    else if es[0] == SYN then
      var (fs, rest) := Cut([], es[1..]);
      ([acc + [SYN]] + fs, rest)
    else Cut(acc + [es[0]], es[1..])
  }

  lemma {:induction false} CutFrame(acc: seq<Event>, f: seq<Event>, es: seq<Event>)
    requires IsFrame(f)
    ensures Cut(acc, f + es) == ([acc + f] + Cut([], es).0, Cut([], es).1)
    decreases |f|
  {
    assert (f + es)[0] == f[0];
    if |f| == 1 {
      assert f == [SYN] && (f + es)[1..] == es;
    } else {
      assert (f + es)[1..] == f[1..] + es;
      CutFrame(acc + [f[0]], f[1..], es);
      assert acc + [f[0]] + f[1..] == acc + f;
    }
  }

  lemma {:induction false} EncodeAllHasNoSyn(ts: seq<Touch>, i: nat)
    requires i < |EncodeAll(ts)|
    ensures EncodeAll(ts)[i].evType == EV_ABS
  {
    if i < |Encode(ts[0])| {
    } else {
      EncodeAllHasNoSyn(ts[1..], i - |Encode(ts[0])|);
    }
  }

  /** Every request but a pass-through writes one whole frame, or nothing. */
  lemma RequestsWriteFrames(w: Setup, q: Request)
    requires !q.PassThrough?
    ensures Events(w, q) == [] || IsFrame(Events(w, q))
  {
    if q.TouchList? {
      var f := TouchFrame(q.touches);
      forall i | 0 <= i < |f| - 1 ensures f[i].evType != EV_SYN {
        EncodeAllHasNoSyn(q.touches, i);
      }
    }
  }

  /** The non-empty frames of the requests for d, first to last. */
  function FramesFor(w: Setup, qs: seq<Request>, d: nat): seq<seq<Event>> {
    if qs == [] then []
    else (if TargetOf(qs[0]) == d && Events(w, qs[0]) != [] then [Events(w, qs[0])] else [])
         + FramesFor(w, qs[1..], d)
  }

  lemma {:induction false} EventsForFirst(w: Setup, qs: seq<Request>, d: nat)
    requires qs != []
    ensures EventsFor(w, qs, d) ==
            (if TargetOf(qs[0]) == d then Events(w, qs[0]) else []) + EventsFor(w, qs[1..], d)
  {
    var n := |qs| - 1;
    if n == 0 {
    } else {
      EventsForFirst(w, qs[..n], d);
      assert qs[..n][1..] == qs[1..][..n - 1] && qs[1..][n - 1] == qs[n];
    }
  }

  /** No request of the run passes an event through to device d. */
  ghost predicate NothingPassedTo(qs: seq<Request>, d: nat) {
    forall q :: q in qs && q.PassThrough? ==> q.device != d
  }

  /** Without pass-through to it, a device's stream is a concatenation of frames, one for each
      request that reached it, each ended by its only SYN_REPORT, with nothing left over. */
  lemma {:induction false} StreamsAreFramed(w: Setup, qs: seq<Request>, d: nat)
    requires NothingPassedTo(qs, d)
    ensures Cut([], EventsFor(w, qs, d)) == (FramesFor(w, qs, d), [])
  {
    if qs == [] {
    } else {
      StreamsAreFramed(w, qs[1..], d);
      EventsForFirst(w, qs, d);
      if TargetOf(qs[0]) == d { RequestsWriteFrames(w, qs[0]); }
      var f := if TargetOf(qs[0]) == d then Events(w, qs[0]) else [];
      if f != [] {
        CutFrame([], f, EventsFor(w, qs[1..], d));
        assert [] + f == f;
      } else {
        assert f + EventsFor(w, qs[1..], d) == EventsFor(w, qs[1..], d);
        assert [] + FramesFor(w, qs[1..], d) == FramesFor(w, qs[1..], d);
      }
    }
  }

  /** The same for what was actually written, over any run of requests. */
  lemma DevicesReceiveFrames(w: Setup, qs: seq<Request>, d: nat)
    requires DistinctOpen(w) && d < MAX_DEVICES && w.fds[d] >= 0
    requires NothingPassedTo(qs, d)
    ensures Cut([], Stream(WrittenAll(w, qs), w.fds[d])) == (FramesFor(w, qs, d), [])
  {
    DeviceStream(w, qs, d);
    StreamsAreFramed(w, qs, d);
  }

  /** The symbol a key request names, by number or by its name; a name XKB does not know
      names none. */
  function SymbolOf(w: Setup, key: KeySpec): Option<uint32> {
    match key
    case RawCode(_) => None
    case KeySym(s) => Some(s)
    case KeyName(name) => if w.symbolOf(name) == 0 then None else Some(w.symbolOf(name))
  }

  /** A key press by symbol or by name writes the least matching key and one SYN_REPORT, or
      nothing if the name is unknown or no key produces the symbol. */
  lemma KeyPressBySymbol(w: Setup, key: KeySpec, pressed: bool)
    requires !key.RawCode?
    ensures var es, sym := Events(w, KeyPress(key, pressed)), SymbolOf(w, key);
            if sym.None? then es == []
            else
              || (es == [] && NoKeyProduces(w.keymap, sym.value))
              || exists level, code: nat :: IsLeast(w.keymap, sym.value, level, code)
                                            && es == [Event(EV_KEY, code, Flag(pressed)), SYN]
  {
    var sym := SymbolOf(w, key);
    if sym.Some? {
      ResolvedIsLeast(w.keymap, sym.value);
      var code := Resolved(w.keymap, sym.value);
      if code != 0 {
        var level: nat :| IsLeast(w.keymap, sym.value, level, code);
        assert Low16(code) == code;
      }
    }
  }

  ghost predicate NoKeyProduces(keymap: Keymap, sym: uint32) {
    forall level, code: nat :: level <= 1 && KEY_ESC <= code < KEY_MAX ==> !Produces(keymap, sym, level, code)
  }

  /** All touches of a run, in order. */
  function AllTouches(qs: seq<Request>): seq<Touch> {
    if qs == [] then []
    else
      AllTouches(qs[..|qs| - 1]) +
        match qs[|qs| - 1] case TouchList(ts) => ts case _ => []
  }

  lemma {:induction false} TouchStream(w: Setup, qs: seq<Request>, m: Machine)
    requires ValidMachine(m) && NothingPassedTo(qs, VIRTUAL_MULTI_TOUCHSCREEN)
    ensures Run(m, EventsFor(w, qs, VIRTUAL_MULTI_TOUCHSCREEN)) == Run(m, EncodeAll(AllTouches(qs)))
  {
    if qs == [] {
    } else {
      var n, q := |qs| - 1, qs[|qs| - 1];
      var before, touches := EventsFor(w, qs[..n], VIRTUAL_MULTI_TOUCHSCREEN), AllTouches(qs[..n]);
      TouchStream(w, qs[..n], m);
      if q.TouchList? {
        RunConcat(m, before, TouchFrame(q.touches));
        FrameRuns(Run(m, before), q.touches);
        EncodeAllConcat(touches, q.touches);
        RunConcat(m, EncodeAll(touches), EncodeAll(q.touches));
      } else {
        assert before + [] == before && touches + [] == touches;
      }
    }
  }

  /** Unless events are passed through to it, the contacts on the multi-touch device are
      those of all touches of the run played one after the other. */
  lemma TouchscreenShowsAllTouches(w: Setup, qs: seq<Request>, m: Machine)
    requires DistinctOpen(w) && w.fds[VIRTUAL_MULTI_TOUCHSCREEN] >= 0 && ValidMachine(m)
    requires NothingPassedTo(qs, VIRTUAL_MULTI_TOUCHSCREEN)
    requires forall t :: t in AllTouches(qs) ==> InRange(t)
    ensures ContactsOf(Run(m, Stream(WrittenAll(w, qs), w.fds[VIRTUAL_MULTI_TOUCHSCREEN])))
            == ApplyAll(ContactsOf(m), AllTouches(qs))
  {
    DeviceStream(w, qs, VIRTUAL_MULTI_TOUCHSCREEN);
    TouchStream(w, qs, m);
    EncodingPreservesMeaning(m, AllTouches(qs));
  }
}
