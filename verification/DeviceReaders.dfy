// What readers of the mouse, the keyboard and the single-touch screen see of the requests.
module DeviceReaders {
  import opened Wrappers
  import opened Sequences
  import opened InputEvents
  import opened KeysymSearch
  import opened InputServer

  /** What a reader of an evdev device keeps: how far it has moved, where it is touched, and
      which keys are down. */
  datatype Reader = Reader(dx: int, dy: int, x: int, y: int, down: set<nat>)

  function Receive(r: Reader, e: Event): Reader {
    if e.evType == EV_REL && e.code == REL_X then r.(dx := r.dx + e.value)
    else if e.evType == EV_REL && e.code == REL_Y then r.(dy := r.dy + e.value)
    else if e.evType == EV_ABS && e.code == ABS_X then r.(x := e.value)
    else if e.evType == EV_ABS && e.code == ABS_Y then r.(y := e.value)
    else if e.evType == EV_KEY then
      // 0 is a release, 1 a press; other values repeat
      if e.value == 1 then r.(down := r.down + {e.code})
      else if e.value == 0 then r.(down := r.down - {e.code})
      else r
    else r
  }

  function ReceiveAll(r: Reader, es: seq<Event>): Reader {
    if es == [] then r else Receive(ReceiveAll(r, es[..|es| - 1]), es[|es| - 1])
  }

  lemma {:induction false} ReceiveConcat(r: Reader, a: seq<Event>, b: seq<Event>)
    ensures ReceiveAll(r, a + b) == ReceiveAll(ReceiveAll(r, a), b)
  {
    if b == [] {
      assert a + b == a;
    } else {
      var n := |b| - 1;
      ReceiveConcat(r, a, b[..n]);
      assert (a + b)[..|a + b| - 1] == a + b[..n];
    }
  }

  /** r has received the first of the events, and then the others. */
  lemma ReceiveFirst(r: Reader, es: seq<Event>)
    requires es != []
    ensures ReceiveAll(r, es) == ReceiveAll(Receive(r, es[0]), es[1..])
  {
    ReceiveConcat(r, [es[0]], es[1..]);
    assert [es[0]] + es[1..] == es;
    assert ReceiveAll(r, [es[0]]) == Receive(r, es[0]) by { assert [es[0]][..0] == []; }
  }

  /** What one more request adds to what the reader of device d has received. */
  lemma ReceiveMore(w: Setup, r: Reader, qs: seq<Request>, d: nat)
    requires qs != []
    ensures var q, before := qs[|qs| - 1], ReceiveAll(r, EventsFor(w, qs[..|qs| - 1], d));
            ReceiveAll(r, EventsFor(w, qs, d)) == if TargetOf(q) == d then ReceiveAll(before, Events(w, q)) else before
  {
    var q, before := qs[|qs| - 1], EventsFor(w, qs[..|qs| - 1], d);
    if TargetOf(q) == d { ReceiveConcat(r, before, Events(w, q)); } else { AppendNothing(before); }
  }

  function Pressed(down: set<nat>, key: nat, pressed: bool): set<nat> {
    if pressed then down + {key} else down - {key}
  }

  // ---- What requests mean to a reader ----

  /** Sums of the movements asked for. */
  function MovedX(qs: seq<Request>): int {
    if qs == [] then 0
    else MovedX(qs[..|qs| - 1]) + match qs[|qs| - 1] case MouseMove(relX, _) => relX case _ => 0
  }

  function MovedY(qs: seq<Request>): int {
    if qs == [] then 0
    else MovedY(qs[..|qs| - 1]) + match qs[|qs| - 1] case MouseMove(_, relY) => relY case _ => 0
  }

  /** The buttons down after the clicks, each as its last click said. */
  function ButtonsAfter(down: set<nat>, qs: seq<Request>): set<nat> {
    if qs == [] then down
    else
      var before := ButtonsAfter(down, qs[..|qs| - 1]);
      match qs[|qs| - 1]
      case MouseClick(btn, pressed) => Pressed(before, btn, pressed)
      case _ => before
  }

  /** The last touch positions that are not negative. */
  function TouchedX(x: int, qs: seq<Request>): int {
    if qs == [] then x
    else
      match qs[|qs| - 1]
      case SingleTouch(absX, _, _) => if absX >= 0 then absX else TouchedX(x, qs[..|qs| - 1])
      case _ => TouchedX(x, qs[..|qs| - 1])
  }

  function TouchedY(y: int, qs: seq<Request>): int {
    if qs == [] then y
    else
      match qs[|qs| - 1]
      case SingleTouch(_, absY, _) => if absY >= 0 then absY else TouchedY(y, qs[..|qs| - 1])
      case _ => TouchedY(y, qs[..|qs| - 1])
  }

  function TouchAfter(down: set<nat>, qs: seq<Request>): set<nat> {
    if qs == [] then down
    else
      var before := TouchAfter(down, qs[..|qs| - 1]);
      match qs[|qs| - 1]
      case SingleTouch(_, _, pressed) => Pressed(before, BTN_TOUCH, pressed)
      case _ => before
  }

  /** The key a request names: the raw code, or the first key that yields its symbol. */
  function KeyNamed(w: Setup, key: KeySpec): Option<nat> {
    if key.RawCode? then Some(key.code)
    else
      var sym := SymbolOf(w, key);
      if sym.None? || Resolved(w.keymap, sym.value) == 0 then None
      else Some(Resolved(w.keymap, sym.value))
  }

  function KeysAfter(w: Setup, down: set<nat>, qs: seq<Request>): set<nat> {
    if qs == [] then down
    else
      var before := KeysAfter(w, down, qs[..|qs| - 1]);
      match qs[|qs| - 1]
      case KeyPress(key, pressed) =>
        (match KeyNamed(w, key)
         case None => before
         case Some(code) => Pressed(before, code, pressed))
      case _ => before
  }

  // ---- The mouse ----

  lemma MouseReceives(w: Setup, r: Reader, q: Request)
    requires TargetOf(q) == VIRTUAL_MOUSE && !q.PassThrough?
    ensures ReceiveAll(r, Events(w, q)) ==
            match q
            case MouseMove(relX, relY) => r.(dx := r.dx + relX, dy := r.dy + relY)
            case MouseClick(btn, pressed) => r.(down := Pressed(r.down, btn, pressed))
            case _ => r
  {
    var es := Events(w, q);
    ReceiveFirst(r, es);
    ReceiveFirst(Receive(r, es[0]), es[1..]);
    if q.MouseMove? { ReceiveFirst(Receive(Receive(r, es[0]), es[1]), es[1..][1..]); }
  }

  lemma {:induction false} MouseFollows(w: Setup, r: Reader, qs: seq<Request>)
    requires NothingPassedTo(qs, VIRTUAL_MOUSE)
    ensures ReceiveAll(r, EventsFor(w, qs, VIRTUAL_MOUSE))
            == r.(dx := r.dx + MovedX(qs), dy := r.dy + MovedY(qs), down := ButtonsAfter(r.down, qs))
  {
    if qs == [] {
    } else {
      var n, q := |qs| - 1, qs[|qs| - 1];
      MouseFollows(w, r, qs[..n]);
      ReceiveMore(w, r, qs, VIRTUAL_MOUSE);
      assert q in qs;
      if TargetOf(q) == VIRTUAL_MOUSE { MouseReceives(w, ReceiveAll(r, EventsFor(w, qs[..n], VIRTUAL_MOUSE)), q); }
    }
  }

  /** Over any run that passes nothing through to the mouse, its reader sees the pointer move
      by the sums of what was asked for, and each button as its last click said. */
  lemma PointerFollowsRequests(w: Setup, qs: seq<Request>, r: Reader)
    requires DistinctOpen(w) && w.fds[VIRTUAL_MOUSE] >= 0 && NothingPassedTo(qs, VIRTUAL_MOUSE)
    ensures ReceiveAll(r, Stream(WrittenAll(w, qs), w.fds[VIRTUAL_MOUSE]))
            == r.(dx := r.dx + MovedX(qs), dy := r.dy + MovedY(qs), down := ButtonsAfter(r.down, qs))
  {
    DeviceStream(w, qs, VIRTUAL_MOUSE);
    MouseFollows(w, r, qs);
  }

  // ---- The keyboard ----

  lemma ReceiveOne(r: Reader, e: Event)
    ensures ReceiveAll(r, [e]) == Receive(r, e)
  {
    assert [e][..0] == [];
  }

  lemma ReceiveKey(r: Reader, code: uint16, pressed: bool)
    ensures ReceiveAll(r, [Event(EV_KEY, code, Flag(pressed)), SYN]) == r.(down := Pressed(r.down, code, pressed))
  {
    var key := Event(EV_KEY, code, Flag(pressed));
    assert [key, SYN][..1] == [key];
    ReceiveOne(r, key);
  }

  lemma NamedKeyIsWritten(w: Setup, key: KeySpec, pressed: bool)
    ensures KeyNamed(w, key).None? ==> Events(w, KeyPress(key, pressed)) == []
    ensures KeyNamed(w, key).Some? ==>
              && KeyNamed(w, key).value < 0x1_0000
              && Events(w, KeyPress(key, pressed)) == [Event(EV_KEY, KeyNamed(w, key).value, Flag(pressed)), SYN]
  {
  }

  lemma KeyboardReceives(w: Setup, r: Reader, q: Request)
    requires q.KeyPress?
    ensures ReceiveAll(r, Events(w, q)) ==
            match KeyNamed(w, q.key)
            case None => r
            case Some(code) => r.(down := Pressed(r.down, code, q.pressed))
  {
    NamedKeyIsWritten(w, q.key, q.pressed);
    if KeyNamed(w, q.key).Some? { ReceiveKey(r, KeyNamed(w, q.key).value, q.pressed); }
  }

  lemma {:induction false} KeyboardFollows(w: Setup, r: Reader, qs: seq<Request>)
    requires NothingPassedTo(qs, VIRTUAL_KEYBOARD)
    ensures ReceiveAll(r, EventsFor(w, qs, VIRTUAL_KEYBOARD)) == r.(down := KeysAfter(w, r.down, qs))
  {
    if qs == [] {
    } else {
      var n, q := |qs| - 1, qs[|qs| - 1];
      KeyboardFollows(w, r, qs[..n]);
      ReceiveMore(w, r, qs, VIRTUAL_KEYBOARD);
      assert q in qs;
      if q.KeyPress? { KeyboardReceives(w, ReceiveAll(r, EventsFor(w, qs[..n], VIRTUAL_KEYBOARD)), q); }
    }
  }

  /** The keyboard's reader sees exactly the keys down that the presses and releases of the
      run leave down. */
  lemma KeysFollowRequests(w: Setup, qs: seq<Request>, r: Reader)
    requires DistinctOpen(w) && w.fds[VIRTUAL_KEYBOARD] >= 0 && NothingPassedTo(qs, VIRTUAL_KEYBOARD)
    ensures ReceiveAll(r, Stream(WrittenAll(w, qs), w.fds[VIRTUAL_KEYBOARD]))
            == r.(down := KeysAfter(w, r.down, qs))
  {
    DeviceStream(w, qs, VIRTUAL_KEYBOARD);
    KeyboardFollows(w, r, qs);
  }

  // ---- The single-touch screen ----

  lemma ScreenReceives(w: Setup, r: Reader, q: Request)
    requires q.SingleTouch?
    ensures ReceiveAll(r, Events(w, q)) ==
            r.(x := if q.absX >= 0 then q.absX else r.x, y := if q.absY >= 0 then q.absY else r.y,
               down := Pressed(r.down, BTN_TOUCH, q.pressed))
  {
    var ex, ey := Event(EV_ABS, ABS_X, q.absX), Event(EV_ABS, ABS_Y, q.absY);
    var a := if q.absX >= 0 then [ex] else [];
    var b := if q.absY >= 0 then [ey] else [];
    var c := [Event(EV_KEY, BTN_TOUCH, Flag(q.pressed)), SYN];
    assert Events(w, q) == (a + b) + c;
    ReceiveConcat(r, a + b, c);
    ReceiveConcat(r, a, b);
    ReceiveOne(r, ex);
    ReceiveOne(ReceiveAll(r, a), ey);
    ReceiveKey(ReceiveAll(r, a + b), BTN_TOUCH, q.pressed);
  }

  lemma {:induction false} ScreenFollows(w: Setup, r: Reader, qs: seq<Request>)
    requires NothingPassedTo(qs, VIRTUAL_TOUCHSCREEN)
    ensures ReceiveAll(r, EventsFor(w, qs, VIRTUAL_TOUCHSCREEN))
            == r.(x := TouchedX(r.x, qs), y := TouchedY(r.y, qs), down := TouchAfter(r.down, qs))
  {
    if qs == [] {
    } else {
      var n, q := |qs| - 1, qs[|qs| - 1];
      ScreenFollows(w, r, qs[..n]);
      ReceiveMore(w, r, qs, VIRTUAL_TOUCHSCREEN);
      assert q in qs;
      if q.SingleTouch? { ScreenReceives(w, ReceiveAll(r, EventsFor(w, qs[..n], VIRTUAL_TOUCHSCREEN)), q); }
    }
  }

  /** The touchscreen's reader sees the last position given for each axis, and a contact
      exactly if the last touch was pressed. */
  lemma TouchFollowsRequests(w: Setup, qs: seq<Request>, r: Reader)
    requires DistinctOpen(w) && w.fds[VIRTUAL_TOUCHSCREEN] >= 0 && NothingPassedTo(qs, VIRTUAL_TOUCHSCREEN)
    ensures ReceiveAll(r, Stream(WrittenAll(w, qs), w.fds[VIRTUAL_TOUCHSCREEN]))
            == r.(x := TouchedX(r.x, qs), y := TouchedY(r.y, qs), down := TouchAfter(r.down, qs))
  {
    DeviceStream(w, qs, VIRTUAL_TOUCHSCREEN);
    ScreenFollows(w, r, qs);
  }
}
