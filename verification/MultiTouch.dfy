// The multi-touch handler as a compiler: a list of touches becomes events for the kernel's
// type B slot machine (Linux multi-touch protocol, "Protocol Example B").
module MultiTouch {
  import opened InputEvents

  /** struct MultiTouch of the schema: Int8 slot, Int16 trackingId, Int32 positions. */
  datatype Touch = Touch(slot: int, trackingId: int, x: int, y: int)

  const SLOTS: nat := 5     // the virtual device configures ABS_MT_SLOT as 0..4

  function Abs(code: uint16, value: int): Event { Event(EV_ABS, code, value) }

  /** The events written for one touch. */
  function Encode(t: Touch): seq<Event> {
    [Abs(ABS_MT_SLOT, t.slot)]
      + (if t.trackingId != 0 then [Abs(ABS_MT_TRACKING_ID, t.trackingId)] else [])
      + (if t.trackingId >= 0 then [Abs(ABS_MT_POSITION_X, t.x), Abs(ABS_MT_POSITION_Y, t.y)] else [])
  }

  function EncodeAll(ts: seq<Touch>): seq<Event> {
    if ts == [] then [] else Encode(ts[0]) + EncodeAll(ts[1..])
  }

  // ---- The slot machine ----

  datatype Slot = Slot(id: int, x: int, y: int)

  /** The selected slot, and what is stored per slot; id < 0 means no contact. */
  datatype Machine = Machine(cur: nat, slots: seq<Slot>)

  predicate ValidMachine(m: Machine) {
    |m.slots| == SLOTS && m.cur < SLOTS
  }

  function Handle(m: Machine, e: Event): (m': Machine)
    requires ValidMachine(m)
    ensures ValidMachine(m')
  {
    var s := m.slots[m.cur];
    if e.evType != EV_ABS then m
    else if e.code == ABS_MT_SLOT then
      // the kernel ignores a slot number it does not have
      if 0 <= e.value < SLOTS then m.(cur := e.value) else m
    else if e.code == ABS_MT_TRACKING_ID then m.(slots := m.slots[m.cur := s.(id := e.value)])
    else if e.code == ABS_MT_POSITION_X then m.(slots := m.slots[m.cur := s.(x := e.value)])
    else if e.code == ABS_MT_POSITION_Y then m.(slots := m.slots[m.cur := s.(y := e.value)])
    else m
  }

  function Run(m: Machine, es: seq<Event>): (m': Machine)
    requires ValidMachine(m)
    ensures ValidMachine(m')
    decreases |es|
  {
    if es == [] then m else Run(Handle(m, es[0]), es[1..])
  }

  // ---- What touches mean ----

  datatype Contact = NoContact | Contact(id: int, x: int, y: int)

  type Contacts = seq<Contact>

  function ContactOf(s: Slot): Contact {
    if s.id < 0 then NoContact else Contact(s.id, s.x, s.y)
  }

  /** The contacts a reader of the device sees. */
  function ContactsOf(m: Machine): Contacts
    requires ValidMachine(m)
  {
    seq(SLOTS, i requires 0 <= i < SLOTS => ContactOf(m.slots[i]))
  }

  /** id > 0 begins a contact, 0 moves the one there is, < 0 lifts it. */
  function Meaning(c: Contact, t: Touch): Contact {
    if t.trackingId > 0 then Contact(t.trackingId, t.x, t.y)
    else if t.trackingId < 0 || c.NoContact? then NoContact
    else Contact(c.id, t.x, t.y)
  }

  function Apply(cs: Contacts, t: Touch): Contacts {
    if 0 <= t.slot < |cs| then cs[t.slot := Meaning(cs[t.slot], t)] else cs
  }

  function ApplyAll(cs: Contacts, ts: seq<Touch>): Contacts
    decreases |ts|
  {
    if ts == [] then cs else ApplyAll(Apply(cs, ts[0]), ts[1..])
  }

  predicate InRange(t: Touch) { 0 <= t.slot < SLOTS }

  // ---- The encoding preserves meaning ----

  lemma {:induction false} RunConcat(m: Machine, a: seq<Event>, b: seq<Event>)
    requires ValidMachine(m)
    ensures Run(m, a + b) == Run(Run(m, a), b)
    decreases |a|
  {
    if a == [] {
      assert a + b == b;
    } else {
      RunConcat(Handle(m, a[0]), a[1..], b);
      assert (a + b)[1..] == a[1..] + b;
    }
  }

  lemma RunShort(m: Machine, e: Event, f: Event)
    requires ValidMachine(m)
    ensures Run(m, [e]) == Handle(m, e) && Run(m, [e, f]) == Handle(Handle(m, e), f)
  {
    assert [e][1..] == [] && [e, f][1..] == [f] && [f][1..] == [];
    var m' := Handle(m, e);
    assert Run(m', [f]) == Run(Handle(m', f), []);
  }

  /** The machine after one touch, spelled out: the slot written is the selected one. */
  lemma RunOne(m: Machine, t: Touch)
    requires ValidMachine(m)
    ensures var k := if InRange(t) then t.slot else m.cur;
            var s := m.slots[k];
            var id := if t.trackingId != 0 then t.trackingId else s.id;
            var s' := if t.trackingId >= 0 then Slot(id, t.x, t.y) else s.(id := id);
            Run(m, Encode(t)) == Machine(k, m.slots[k := s'])
  {
    var slot, id, x, y := Abs(ABS_MT_SLOT, t.slot), Abs(ABS_MT_TRACKING_ID, t.trackingId),
                          Abs(ABS_MT_POSITION_X, t.x), Abs(ABS_MT_POSITION_Y, t.y);
    var track := if t.trackingId != 0 then [id] else [];
    var pos := if t.trackingId >= 0 then [x, y] else [];
    RunConcat(m, [slot], track);
    RunConcat(m, [slot] + track, pos);
    RunShort(m, slot, slot);
    RunShort(Run(m, [slot]), id, id);
    RunShort(Run(m, [slot] + track), x, y);
  }

  lemma EncodeOne(m: Machine, t: Touch)
    requires ValidMachine(m) && InRange(t)
    ensures ContactsOf(Run(m, Encode(t))) == Apply(ContactsOf(m), t)
  {
    RunOne(m, t);
  }

  /** Running the machine over what the handler writes gives the contacts that folding
      begin, move and lift over the list gives. */
  lemma {:induction false} EncodingPreservesMeaning(m: Machine, ts: seq<Touch>)
    requires ValidMachine(m) && forall t :: t in ts ==> InRange(t)
    ensures ContactsOf(Run(m, EncodeAll(ts))) == ApplyAll(ContactsOf(m), ts)
    decreases |ts|
  {
    if ts == [] {
    } else {
      RunConcat(m, Encode(ts[0]), EncodeAll(ts[1..]));
      EncodeOne(m, ts[0]);
      EncodingPreservesMeaning(Run(m, Encode(ts[0])), ts[1..]);
    }
  }

  /** A touch outside the range lands on whatever slot was selected before. */
  lemma OutOfRangeTouchMisplaced(t: Touch) returns (m: Machine)
    requires !InRange(t)
    ensures ValidMachine(m) && ContactsOf(Run(m, Encode(t))) != Apply(ContactsOf(m), t)
  {
    // the selected slot holds a contact that the touch begins anew, moves or lifts
    var s := Slot(7, t.x + 1, 0);
    m := Machine(0, [s, s, s, s, s]);
    RunOne(m, t);
    assert ContactsOf(m)[0] == Contact(7, t.x + 1, 0);
    assert ContactsOf(Run(m, Encode(t)))[0] != Contact(7, t.x + 1, 0);
  }

  ghost predicate UnderstoodByAll(t: Touch) {
    forall m :: ValidMachine(m) ==> ContactsOf(Run(m, Encode(t))) == Apply(ContactsOf(m), t)
  }

  lemma UnderstoodIff(t: Touch)
    ensures InRange(t) <==> UnderstoodByAll(t)
  {
    if InRange(t) {
      forall m | ValidMachine(m) ensures ContactsOf(Run(m, Encode(t))) == Apply(ContactsOf(m), t) {
        EncodeOne(m, t);
      }
    } else {
      var m := OutOfRangeTouchMisplaced(t);
    }
  }

  /** So the slot range is exactly what it takes to be understood by every machine. */
  lemma MeaningPreservedIffInRange(t: Touch)
    ensures 0 <= t.slot <= 4 <==> UnderstoodByAll(t)
  {
    UnderstoodIff(t);
  }

  // ---- Consequences for lists of touches ----

  /** What one touch shows: the contact it begins or moves lies where it says, with its own
      identity or the one it had; a lifted one is gone. */
  lemma TouchIsShown(m: Machine, t: Touch)
    requires ValidMachine(m) && InRange(t)
    ensures var was := ContactsOf(m)[t.slot];
            var c := ContactsOf(Run(m, Encode(t)))[t.slot];
            && (t.trackingId > 0 ==> c.Contact? && c.id == t.trackingId)
            && (t.trackingId == 0 ==> c.Contact? == was.Contact? && (c.Contact? ==> c.id == was.id))
            && (t.trackingId < 0 ==> c.NoContact?)
            && (c.Contact? ==> c.x == t.x && c.y == t.y)
  {
    EncodeOne(m, t);
  }

  /** Slots that the list does not name are left alone. */
  lemma {:induction false} UnnamedSlotUntouched(cs: Contacts, ts: seq<Touch>, k: nat)
    requires k < |cs| && forall t :: t in ts ==> t.slot != k
    ensures |ApplyAll(cs, ts)| == |cs| && ApplyAll(cs, ts)[k] == cs[k]
    decreases |ts|
  {
    if ts == [] {
    } else {
      UnnamedSlotUntouched(Apply(cs, ts[0]), ts[1..], k);
    }
  }

  /** Touches of different slots commute. */
  lemma DistinctSlotsCommute(cs: Contacts, t: Touch, u: Touch, rest: seq<Touch>)
    requires t.slot != u.slot
    ensures ApplyAll(cs, [t, u] + rest) == ApplyAll(cs, [u, t] + rest)
  {
    assert ([t, u] + rest)[1..] == [u] + rest && ([u, t] + rest)[1..] == [t] + rest;
    assert ([u] + rest)[1..] == rest && ([t] + rest)[1..] == rest;
    assert Apply(Apply(cs, t), u) == Apply(Apply(cs, u), t);
  }

  lemma {:induction false} EncodeAllConcat(a: seq<Touch>, b: seq<Touch>)
    ensures EncodeAll(a + b) == EncodeAll(a) + EncodeAll(b)
  {
    if a == [] {
      assert a + b == b;
    } else {
      EncodeAllConcat(a[1..], b);
      assert (a + b)[1..] == a[1..] + b;
    }
  }

  /** The frame one call writes. */
  function TouchFrame(ts: seq<Touch>): seq<Event> {
    EncodeAll(ts) + [Event(EV_SYN, SYN_REPORT, 0)]
  }

  lemma FrameRuns(m: Machine, ts: seq<Touch>)
    requires ValidMachine(m)
    ensures Run(m, TouchFrame(ts)) == Run(m, EncodeAll(ts))
  {
    var syn := [Event(EV_SYN, SYN_REPORT, 0)];
    RunConcat(m, EncodeAll(ts), syn);
    assert Run(Run(m, EncodeAll(ts)), syn) == Handle(Run(m, EncodeAll(ts)), syn[0]);
  }

  /** One call on a list leaves the machine as two calls on its halves do. */
  lemma CallsMaySplit(m: Machine, a: seq<Touch>, b: seq<Touch>)
    requires ValidMachine(m)
    ensures Run(m, TouchFrame(a + b)) == Run(Run(m, TouchFrame(a)), TouchFrame(b))
  {
    FrameRuns(m, a + b);
    FrameRuns(m, a);
    FrameRuns(Run(m, EncodeAll(a)), b);
    EncodeAllConcat(a, b);
    RunConcat(m, EncodeAll(a), EncodeAll(b));
  }
}
