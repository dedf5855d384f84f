// Input events, devices and recorded entries, with the numbers of linux/input.h.
module InputEvents {
  import TouchScaling

  const EV_SYN := 0
  const EV_KEY := 1
  const EV_REL := 2
  const EV_ABS := 3
  const SYN_REPORT := 0
  const REL_X := 0
  const REL_Y := 1
  const ABS_X := 0x00
  const ABS_Y := 0x01
  const ABS_MT_SLOT := 0x2f
  const ABS_MT_POSITION_X := 0x35
  const ABS_MT_POSITION_Y := 0x36
  const ABS_MT_TRACKING_ID := 0x39
  const KEY_ESC := 1
  const KEY_MAX := 0x2ff
  const BTN_TOUCH := 0x14a

  type uint16 = n: int | 0 <= n < 0x1_0000
  type uint32 = n: int | 0 <= n < 0x1_0000_0000
  type int32 = n: int | -0x8000_0000 <= n < 0x8000_0000

  /** The recorder's device_type; available devices have one of the first four. */
  datatype DeviceType = Mouse | Keyboard | Touchscreen | MultiTouchscreen | Unknown
  {
    function Number(): nat {
      match this
      case Mouse => 0
      case Keyboard => 1
      case Touchscreen => 2
      case MultiTouchscreen => 3
      case Unknown => 4
    }
  }

  datatype Device = Device(fd: int, kind: DeviceType, xMin: int, xMax: int, yMin: int, yMax: int)

  /** struct input_event, without the kernel's own time stamp. */
  datatype Event = Event(evType: uint16, code: uint16, value: int)

  /** struct input_record_s */
  datatype InputRecord = InputRecord(tsAbs: int, dev: DeviceType, event: Event, keysym: uint32)

  predicate IsEscape(ev: Event) {
    ev.evType == EV_KEY && ev.code == KEY_ESC
  }

  /** Touch positions are stored in the virtual range, everything else as it came. */
  function Transformed(dev: Device, ev: Event): Event {
    if ev.evType != EV_ABS then ev
    else if ev.code == ABS_MT_POSITION_X || ev.code == ABS_X then
      ev.(value := TouchScaling.Scale(TouchScaling.ABS_X_MAX, dev.xMin, dev.xMax, ev.value))
    else if ev.code == ABS_MT_POSITION_Y || ev.code == ABS_Y then
      ev.(value := TouchScaling.Scale(TouchScaling.ABS_Y_MAX, dev.yMin, dev.yMax, ev.value))
    else ev
  }

  /** The scaling leaves the kind of event alone: ESC is recognised before or after it. */
  lemma TransformedKeepsKind(dev: Device, ev: Event)
    ensures Transformed(dev, ev).evType == ev.evType && Transformed(dev, ev).code == ev.code
    ensures IsEscape(Transformed(dev, ev)) <==> IsEscape(ev)
  {
  }

  predicate IsXAxis(code: uint16) { code == ABS_X || code == ABS_MT_POSITION_X }

  predicate IsYAxis(code: uint16) { code == ABS_Y || code == ABS_MT_POSITION_Y }

  /** value is the floor of v * max / range, or one less if that division is exact. */
  ghost predicate ScaledFrom(value: int, v: int, max: int, range: int)
    requires range > 0
  {
    value == v * max / range || (v * max % range == 0 && value == v * max / range - 1)
  }

  /** A touch position inside its own axis's native range lands, in proportion, inside that
      axis's virtual range; every other event is recorded as it came. */
  lemma TransformedTouchFits(dev: Device, ev: Event)
    ensures ev.evType == EV_ABS && IsXAxis(ev.code)
            && 0 < dev.xMax - dev.xMin <= 0x7FFF_FFFF && dev.xMin <= ev.value <= dev.xMax
            ==> 0 <= Transformed(dev, ev).value <= 16000
                && ScaledFrom(Transformed(dev, ev).value, ev.value - dev.xMin, 16000, dev.xMax - dev.xMin)
    ensures ev.evType == EV_ABS && IsYAxis(ev.code)
            && 0 < dev.yMax - dev.yMin <= 0x7FFF_FFFF && dev.yMin <= ev.value <= dev.yMax
            ==> 0 <= Transformed(dev, ev).value <= 9000
                && ScaledFrom(Transformed(dev, ev).value, ev.value - dev.yMin, 9000, dev.yMax - dev.yMin)
    ensures !(ev.evType == EV_ABS && (IsXAxis(ev.code) || IsYAxis(ev.code))) ==> Transformed(dev, ev) == ev
  {
    if IsXAxis(ev.code) && 0 < dev.xMax - dev.xMin <= 0x7FFF_FFFF && dev.xMin <= ev.value <= dev.xMax {
      TouchScaling.ScaleIsFloor(TouchScaling.ABS_X_MAX, dev.xMin, dev.xMax, ev.value);
    }
    if IsYAxis(ev.code) && 0 < dev.yMax - dev.yMin <= 0x7FFF_FFFF && dev.yMin <= ev.value <= dev.yMax {
      TouchScaling.ScaleIsFloor(TouchScaling.ABS_Y_MAX, dev.yMin, dev.yMax, ev.value);
    }
  }

  /** The entry recorded at time now for an event of dev, already transformed; keysym is
      what the keyboard layout gives and is kept for key events of keyboards only. */
  function MakeRecord(now: int, dev: Device, ev: Event, keysym: uint32): InputRecord {
    InputRecord(now, dev.kind, ev,
                if ev.evType == EV_KEY && dev.kind == Keyboard then keysym else 0)
  }
}
