// The text of a recording, version 2: printing as the recorder does it, and a reader
// for it.
module RecordingFormat {
  import opened Wrappers
  import opened Sequences
  import opened InputEvents

  // ---- Numbers ----

  function DigitChar(d: nat): char
    requires d < 10
  {
    ('0' as int + d) as char
  }

  predicate IsDigit(c: char) { '0' <= c <= '9' }

  function DigitValue(c: char): nat
    requires IsDigit(c)
  {
    c as int - '0' as int
  }

  function Digits(n: nat): (t: string)
    ensures |t| > 0
  {
    (if n < 10 then [] else Digits(n / 10)) + [DigitChar(n % 10)]
  }

  /** operator<< of an integer. */
  function Dec(n: int): string {
    if n < 0 then ['-'] + Digits(-n) else Digits(n)
  }

  /** setw(w) with setfill('0'). */
  function Padded(w: nat, t: string): string
    decreases w - |t|
  {
    if |t| < w then Padded(w, ['0'] + t) else t
  }

  // ---- Time of day ----

  const HOUR := 3600000
  const DAY := 86400000

  // Division of durations truncates toward zero.
  function Quotient(a: int, b: nat): int
    requires b > 0
  {
    if a >= 0 then a / b else -((-a) / b)
  }

  function Remainder(a: int, b: nat): int
    requires b > 0
  {
    if a >= 0 then a % b else -((-a) % b)
  }

  // Printers take what follows as a parameter: text is built from the right.

  function NumberThen(w: nat, n: int, rest: string): string {
    Padded(w, Dec(n)) + rest
  }

  /** The four numbers of a time. */
  function Hours(ms: int): int { Remainder(Quotient(ms, HOUR), 24) }
  function Minutes(ms: int): int { Quotient(Remainder(ms, HOUR), 60000) }
  function Seconds(ms: int): int { Quotient(Remainder(Remainder(ms, HOUR), 60000), 1000) }
  function Millis(ms: int): int { Remainder(Remainder(Remainder(ms, HOUR), 60000), 1000) }

  function TimeThen(ms: int, rest: string): string {
    PartsThen(Hours(ms), Minutes(ms), Seconds(ms), Millis(ms), rest)
  }

  function PartsThen(h: int, m: int, s: int, ms: int, rest: string): string {
    NumberThen(2, h, ":" + NumberThen(2, m, ":" + NumberThen(2, s, "." + NumberThen(3, ms, rest))))
  }

  /** current_time_str */
  function TimeText(ms: int): string { TimeThen(ms, "") }

  // ---- Lines and files ----

  function KeysymThen(keysym: uint32, rest: string): string {
    if keysym == 0 then rest else " " + NumberThen(0, keysym, rest)
  }

  function FieldsThen(r: InputRecord, rest: string): string {
    NumberThen(0, r.dev.Number(), " " + NumberThen(0, r.event.evType, " " +
      NumberThen(0, r.event.code, " " + NumberThen(0, r.event.value, KeysymThen(r.keysym, rest)))))
  }

  function LineThen(r: InputRecord, rest: string): string {
    "[" + TimeThen(r.tsAbs, "] passThrough " + FieldsThen(r, "\n" + rest))
  }

  function HeaderThen(instant: int, rest: string): string {
    "version 2\n[" + TimeThen(instant, "]\n" + rest)
  }

  /** The line processBuffer writes for a record. */
  function DumpedLine(r: InputRecord): string { LineThen(r, "") }

  function Lines(rs: seq<InputRecord>): seq<string> {
    Mapped(DumpedLine, rs)
  }

  function Concat(ts: seq<string>): string {
    if ts == [] then "" else ts[0] + Concat(ts[1..])
  }

  /** The file processBuffer writes: header, then the lines of the buffered records. */
  function DumpText(instant: int, rs: seq<InputRecord>): string {
    HeaderThen(instant, Concat(Lines(rs)))
  }

  /** What Record itself writes in fixed-length mode, piece after piece: the line for an
      event it has just read, and the header. */
  function StreamedLine(ts: int, kind: DeviceType, ev: Event, keysym: uint32): string {
    var line := "[" + TimeText(ts) + "] " + "passThrough " + Dec(kind.Number()) + " " + Dec(ev.evType)
                + " " + Dec(ev.code) + " " + Dec(ev.value);
    (if keysym != 0 then line + " " + Dec(keysym) else line) + "\n"
  }

  function StreamedHeader(start: int): string {
    "version " + "2" + "\n" + "[" + TimeText(start) + "]" + "\n"
  }

  function StreamedRecord(r: InputRecord): string { StreamedLine(r.tsAbs, r.dev, r.event, r.keysym) }

  function StreamedLines(rs: seq<InputRecord>): seq<string> {
    Mapped(StreamedRecord, rs)
  }

  /** Everything written to the fixed-length file, write after write. */
  function StreamWrites(start: int, rs: seq<InputRecord>): seq<string> {
    [StreamedHeader(start)] + StreamedLines(rs)
  }

  /** The fixed-length file after these records. */
  function StreamText(start: int, rs: seq<InputRecord>): string {
    Concat(StreamWrites(start, rs))
  }

  // ---- Reading ----

  /** What a line says: the time only as time of day. */
  datatype RecordedLine = RecordedLine(time: nat, dev: nat, evType: nat, code: nat, value: int, keysym: nat)

  function Reduced(r: InputRecord): RecordedLine
    requires r.tsAbs >= 0
  {
    RecordedLine(r.tsAbs % DAY, r.dev.Number(), r.event.evType, r.event.code, r.event.value, r.keysym)
  }

  function Expect(prefix: string, t: string): (rest: Option<string>)
    ensures rest.Some? ==> |rest.value| == |t| - |prefix|
  {
    if prefix <= t then Some(t[|prefix|..]) else None
  }

  /** The longest run of digits at the front, as a number continuing acc. */
  function ReadDigits(acc: nat, t: string): (r: (nat, string))
    ensures |r.1| <= |t|
    decreases |t|
  {
    if t != [] && IsDigit(t[0]) then ReadDigits(10 * acc + DigitValue(t[0]), t[1..]) else (acc, t)
  }

  function ReadNat(t: string): (r: Option<(nat, string)>)
    ensures r.Some? ==> |r.value.1| <= |t|
  {
    if t != [] && IsDigit(t[0]) then Some(ReadDigits(0, t)) else None
  }

  function ReadInt(t: string): (r: Option<(int, string)>)
    ensures r.Some? ==> |r.value.1| <= |t|
  {
    if t != [] && t[0] == '-' then
      match ReadNat(t[1..])
      case Some((n, rest)) => Some((0 - n, rest))
      case None => None
    else
      match ReadNat(t)
      case Some((n, rest)) => Some((n, rest))
      case None => None
  }

  /** A number and the separator after it. */
  function ReadUpTo(sep: string, t: string): (r: Option<(nat, string)>)
    ensures r.Some? ==> |r.value.1| <= |t|
  {
    var (n, a) :- ReadNat(t);
    var rest :- Expect(sep, a);
    Some((n, rest))
  }

  /** hh:mm:ss.mmm */
  function ReadTime(t: string): (r: Option<(nat, string)>)
    ensures r.Some? ==> |r.value.1| <= |t|
  {
    var (h, a) :- ReadUpTo(":", t);
    var (m, b) :- ReadUpTo(":", a);
    var (s, c) :- ReadUpTo(".", b);
    var (ms, rest) :- ReadNat(c);
    Some((h * HOUR + m * 60000 + s * 1000 + ms, rest))
  }

  function ReadKeysym(t: string): (r: Option<(nat, string)>)
    ensures r.Some? ==> |r.value.1| <= |t|
  {
    if t != [] && t[0] == ' ' then ReadNat(t[1..]) else Some((0, t))
  }

  /** Everything after the time. */
  function ReadFields(time: nat, t: string): (r: Option<(RecordedLine, string)>)
    ensures r.Some? ==> |r.value.1| <= |t|
  {
    var (dev, a) :- ReadUpTo(" ", t);
    var (evType, b) :- ReadUpTo(" ", a);
    var (code, c) :- ReadUpTo(" ", b);
    var (value, d) :- ReadInt(c);
    var (keysym, e) :- ReadKeysym(d);
    Some((RecordedLine(time, dev, evType, code, value, keysym), e))
  }

  function ReadLine(t: string): (r: Option<(RecordedLine, string)>)
    ensures r.Some? ==> |r.value.1| < |t|
  {
    var a :- Expect("[", t);
    var (time, b) :- ReadTime(a);
    var c :- Expect("] passThrough ", b);
    var (entry, d) :- ReadFields(time, c);
    var rest :- Expect("\n", d);
    Some((entry, rest))
  }

  function ReadBody(t: string): Option<seq<RecordedLine>>
    decreases |t|
  {
    if t == [] then Some([])
    else
      var (first, rest) :- ReadLine(t);
      var more :- ReadBody(rest);
      Some([first] + more)
  }

  /** The header instant and the entries of a recording. */
  function ReadFile(t: string): Option<(nat, seq<RecordedLine>)> {
    var a :- Expect("version 2\n[", t);
    var (start, b) :- ReadTime(a);
    var c :- Expect("]\n", b);
    var entries :- ReadBody(c);
    Some((start, entries))
  }

  // ---- Round trip ----

  predicate NoDigitFirst(t: string) {
    t == [] || !IsDigit(t[0])
  }

  lemma {:induction false} ReadDigitsOf(n: nat, rest: string)
    ensures ReadDigits(0, Digits(n) + rest) == ReadDigits(n, rest)
  {
    var c := DigitChar(n % 10);
    if n < 10 {
      assert Digits(n) + rest == [c] + rest;
    } else {
      ReadDigitsOf(n / 10, [c] + rest);
      assert Digits(n) + rest == Digits(n / 10) + ([c] + rest);
    }
  }

  lemma {:induction false} AllDigits(n: nat, i: nat)
    requires i < |Digits(n)|
    ensures IsDigit(Digits(n)[i])
  {
    if n < 10 || i == |Digits(n / 10)| {
    } else {
      AllDigits(n / 10, i);
    }
  }

  lemma ReadNatOf(n: nat, rest: string)
    requires NoDigitFirst(rest)
    ensures ReadNat(Digits(n) + rest) == Some((n, rest))
  {
    AllDigits(n, 0);
    ReadDigitsOf(n, rest);
  }

  lemma ReadNegativeOf(n: nat, t: string, rest: string)
    requires NoDigitFirst(rest) && t == ['-'] + (Digits(n) + rest)
    ensures ReadInt(t) == Some((-(n as int), rest))
  {
    ReadNatOf(n, rest);
    assert t[1..] == Digits(n) + rest;
  }

  lemma ReadNonNegativeOf(n: nat, t: string, rest: string)
    requires NoDigitFirst(rest) && t == Digits(n) + rest
    ensures ReadInt(t) == Some((n, rest))
  {
    ReadNatOf(n, rest);
    AllDigits(n, 0);
    assert t[0] == Digits(n)[0];
  }

  lemma ReadIntOf(n: int, rest: string)
    requires NoDigitFirst(rest)
    ensures ReadInt(NumberThen(0, n, rest)) == Some((n, rest))
  {
    var t := NumberThen(0, n, rest);
    if n < 0 {
      Regroup(['-'], Digits(-n), rest);
      ReadNegativeOf(-n, t, rest);
    } else {
      ReadNonNegativeOf(n, t, rest);
    }
  }

  /** Leading zeros do not change the number. */
  lemma {:induction false} ReadPadded(w: nat, t: string, n: nat, rest: string)
    requires t != [] && ReadNat(t + rest) == Some((n, rest))
    ensures ReadNat(Padded(w, t) + rest) == Some((n, rest))
    decreases w - |t|
  {
    if |t| >= w {
    } else {
      assert (['0'] + t + rest)[1..] == t + rest;
      ReadPadded(w, ['0'] + t, n, rest);
    }
  }

  lemma ReadNumber(w: nat, n: nat, rest: string)
    requires NoDigitFirst(rest)
    ensures ReadNat(NumberThen(w, n, rest)) == Some((n, rest))
  {
    ReadNatOf(n, rest);
    ReadPadded(w, Digits(n), n, rest);
  }

  lemma ReadUpToOf(sep: string, w: nat, n: nat, rest: string)
    requires sep != [] && !IsDigit(sep[0])
    ensures ReadUpTo(sep, NumberThen(w, n, sep + rest)) == Some((n, rest))
  {
    ReadNumber(w, n, sep + rest);
  }

  lemma RemainderOf(a: nat, b: nat)
    requires b > 0
    ensures Quotient(a, b) == a / b && Remainder(a, b) == a % b && 0 <= a % b < b
  {
  }

  lemma PartsMakeTime(ms: nat)
    ensures 0 <= Hours(ms) < 24 && 0 <= Minutes(ms) < 60 && 0 <= Seconds(ms) < 60 && 0 <= Millis(ms) < 1000
    ensures Hours(ms) * HOUR + Minutes(ms) * 60000 + Seconds(ms) * 1000 + Millis(ms) == ms % DAY
  {
    RemainderOf(ms, HOUR);
    RemainderOf(ms / HOUR, 24);
    RemainderOf(ms % HOUR, 60000);
    RemainderOf(ms % HOUR % 60000, 1000);
    TimeOfDay(ms);
  }

  lemma TimeOfDay(ms: nat)
    ensures ms % DAY == ((ms / HOUR) % 24) * HOUR + ms % HOUR
  {
    var h := ms / HOUR;
    assert ms == (h / 24) * DAY + (h % 24) * HOUR + ms % HOUR;
  }

  lemma ReadParts(h: nat, m: nat, s: nat, ms: nat, rest: string)
    requires NoDigitFirst(rest)
    ensures ReadTime(PartsThen(h, m, s, ms, rest)) == Some((h * HOUR + m * 60000 + s * 1000 + ms, rest))
  {
    var c := NumberThen(3, ms, rest);
    var b := NumberThen(2, s, "." + c);
    var a := NumberThen(2, m, ":" + b);
    ReadUpToOf(":", 2, h, a);
    ReadUpToOf(":", 2, m, b);
    ReadUpToOf(".", 2, s, c);
    ReadNumber(3, ms, rest);
  }

  lemma ReadTimeOf(ms: nat, rest: string)
    requires NoDigitFirst(rest)
    ensures ReadTime(TimeThen(ms, rest)) == Some((ms % DAY, rest))
  {
    PartsMakeTime(ms);
    ReadParts(Hours(ms), Minutes(ms), Seconds(ms), Millis(ms), rest);
  }

  lemma ReadKeysymOf(keysym: uint32, rest: string)
    requires rest != [] && rest[0] == '\n'
    ensures ReadKeysym(KeysymThen(keysym, rest)) == Some((keysym, rest))
    ensures NoDigitFirst(KeysymThen(keysym, rest))
  {
    if keysym != 0 {
      ReadNumber(0, keysym, rest);
      assert KeysymThen(keysym, rest)[1..] == NumberThen(0, keysym, rest);
    }
  }

  lemma ReadFieldsOf(r: InputRecord, time: nat, rest: string)
    requires rest != [] && rest[0] == '\n'
    ensures ReadFields(time, FieldsThen(r, rest)) ==
            Some((RecordedLine(time, r.dev.Number(), r.event.evType, r.event.code, r.event.value, r.keysym), rest))
  {
    var d := KeysymThen(r.keysym, rest);
    var c := NumberThen(0, r.event.value, d);
    var b := NumberThen(0, r.event.code, " " + c);
    var a := NumberThen(0, r.event.evType, " " + b);
    ReadUpToOf(" ", 0, r.dev.Number(), a);
    ReadUpToOf(" ", 0, r.event.evType, b);
    ReadUpToOf(" ", 0, r.event.code, c);
    ReadKeysymOf(r.keysym, rest);
    ReadIntOf(r.event.value, d);
  }

  lemma ExpectOf(prefix: string, rest: string)
    ensures Expect(prefix, prefix + rest) == Some(rest)
  {
  }

  /** A printed line reads back as its record, the time reduced to the time of day. */
  lemma ReadLineOf(r: InputRecord, rest: string)
    requires r.tsAbs >= 0
    ensures ReadLine(LineThen(r, rest)) == Some((Reduced(r), rest))
  {
    var c := "\n" + rest;
    var b := FieldsThen(r, c);
    var a := TimeThen(r.tsAbs, "] passThrough " + b);
    ExpectOf("[", a);
    ReadTimeOf(r.tsAbs, "] passThrough " + b);
    ExpectOf("] passThrough ", b);
    ReadFieldsOf(r, r.tsAbs % DAY, c);
    ExpectOf("\n", rest);
  }

  ghost predicate NonNegativeTimes(rs: seq<InputRecord>) {
    forall i :: 0 <= i < |rs| ==> rs[i].tsAbs >= 0
  }

  function AllReduced(rs: seq<InputRecord>): seq<RecordedLine>
    requires NonNegativeTimes(rs)
  {
    if rs == [] then [] else [Reduced(rs[0])] + AllReduced(rs[1..])
  }

  lemma {:induction false} ReadBodyOf(rs: seq<InputRecord>)
    requires NonNegativeTimes(rs)
    ensures ReadBody(Concat(Lines(rs))) == Some(AllReduced(rs))
  {
    if rs == [] {
    } else {
      var rest := Concat(Lines(rs[1..]));
      ReadBodyOf(rs[1..]);
      ReadLineOf(rs[0], rest);
      LineThenConcat(rs);
      ReadBodyStep(Concat(Lines(rs)), Reduced(rs[0]), rest, AllReduced(rs[1..]));
    }
  }

  lemma ReadBodyStep(t: string, first: RecordedLine, rest: string, more: seq<RecordedLine>)
    requires ReadLine(t) == Some((first, rest)) && ReadBody(rest) == Some(more)
    ensures ReadBody(t) == Some([first] + more)
  {
  }

  lemma LineThenConcat(rs: seq<InputRecord>)
    requires rs != []
    ensures Concat(Lines(rs)) == LineThen(rs[0], Concat(Lines(rs[1..])))
  {
    var rest := Concat(Lines(rs[1..]));
    MappedFirst(DumpedLine, rs);
    LineSplits(rs[0], "", rest);
    assert "" + rest == rest;
  }

  /** Reading back any file the recorder writes gives its header and every record. */
  lemma FileRoundTrip(instant: nat, rs: seq<InputRecord>)
    requires NonNegativeTimes(rs)
    ensures ReadFile(DumpText(instant, rs)) == Some((instant % DAY, AllReduced(rs)))
  {
    var b := "]\n" + Concat(Lines(rs));
    var a := TimeThen(instant, b);
    ExpectOf("version 2\n[", a);
    ReadTimeOf(instant, b);
    ExpectOf("]\n", Concat(Lines(rs)));
    ReadBodyOf(rs);
  }

  /** So different recordings, times of day considered, are never written alike. */
  lemma FilesDetermineRecordings(i: nat, rs: seq<InputRecord>, j: nat, qs: seq<InputRecord>)
    requires NonNegativeTimes(rs) && NonNegativeTimes(qs) && DumpText(i, rs) == DumpText(j, qs)
    ensures i % DAY == j % DAY && AllReduced(rs) == AllReduced(qs)
  {
    FileRoundTrip(i, rs);
    FileRoundTrip(j, qs);
  }

  // ---- Instants before the epoch ----

  predicate MinusFirst(t: string) { t != [] && t[0] == '-' }

  predicate ZerosThenMinus(t: string) {
    t != [] && (t[0] == '-' || (t[0] == '0' && ZerosThenMinus(t[1..])))
  }

  lemma {:induction false} ReadDigitsStops(t: string, rest: string)
    requires ZerosThenMinus(t)
    ensures ReadDigits(0, t + rest).0 == 0 && MinusFirst(ReadDigits(0, t + rest).1)
  {
    if t[0] == '-' {
    } else {
      ReadDigitsStops(t[1..], rest);
      assert (t + rest)[1..] == t[1..] + rest;
    }
  }

  lemma {:induction false} PaddedMinus(w: nat, t: string)
    requires ZerosThenMinus(t)
    ensures ZerosThenMinus(Padded(w, t))
    decreases w - |t|
  {
    if |t| >= w {
    } else {
      assert (['0'] + t)[1..] == t;
      PaddedMinus(w, ['0'] + t);
    }
  }

  /** Reading a negative number stops at its sign. */
  lemma NegativeStops(w: nat, n: int, rest: string)
    requires n < 0
    ensures var r := ReadNat(NumberThen(w, n, rest)); r.None? || MinusFirst(r.value.1)
  {
    PaddedMinus(w, Dec(n));
    ReadDigitsStops(Padded(w, Dec(n)), rest);
  }

  lemma NegativeParts(h: int, m: int, s: int, ms: int, rest: string)
    requires h <= 0 && m <= 0 && s <= 0 && ms <= 0 && !(h == m == s == ms == 0)
    ensures var r := ReadTime(PartsThen(h, m, s, ms, rest)); r.None? || MinusFirst(r.value.1)
  {
    var c := NumberThen(3, ms, rest);
    var b := NumberThen(2, s, "." + c);
    var a := NumberThen(2, m, ":" + b);
    if h < 0 {
      NegativeStops(2, h, ":" + a);
    } else {
      ReadUpToOf(":", 2, h, a);
      if m < 0 {
        NegativeStops(2, m, ":" + b);
      } else {
        ReadUpToOf(":", 2, m, b);
        if s < 0 {
          NegativeStops(2, s, "." + c);
        } else {
          ReadUpToOf(".", 2, s, c);
          NegativeStops(3, ms, rest);
        }
      }
    }
  }

  /** The parts of an instant before the epoch are those of the mirrored one, negated. */
  lemma MirroredParts(ms: int)
    requires ms < 0
    ensures Hours(ms) == -Hours(-ms) && Minutes(ms) == -Minutes(-ms)
    ensures Seconds(ms) == -Seconds(-ms) && Millis(ms) == -Millis(-ms)
  {
    RemainderOf(-ms, HOUR);
    RemainderOf(-ms / HOUR, 24);
    RemainderOf(-ms % HOUR, 60000);
    RemainderOf(-ms % HOUR % 60000, 1000);
  }

  lemma MirroredDay(ms: int)
    ensures ms % DAY == 0 <==> (-ms) % DAY == 0
  {
  }

  lemma PartsBeforeEpoch(ms: int) returns (h: int, m: int, s: int, x: int)
    requires ms < 0
    ensures h == Hours(ms) && m == Minutes(ms) && s == Seconds(ms) && x == Millis(ms)
    ensures h <= 0 && m <= 0 && s <= 0 && x <= 0
    ensures ms % DAY == 0 <==> h == m == s == x == 0
  {
    MirroredParts(ms);
    MirroredDay(ms);
    PartsMakeTime(-ms);
    h, m, s, x := Hours(ms), Minutes(ms), Seconds(ms), Millis(ms);
    ZeroSum(-h, -m, -s, -x, (-ms) % DAY);
  }

  lemma ZeroSum(h: nat, m: nat, s: nat, x: nat, d: nat)
    requires h * HOUR + m * 60000 + s * 1000 + x == d
    ensures d == 0 <==> h == m == s == x == 0
  {
  }

  lemma TimeBeforeEpoch(ms: int, t: string, rest: string)
    requires ms < 0 && t == TimeThen(ms, rest)
    ensures ms % DAY == 0 ==> t == PartsThen(0, 0, 0, 0, rest)
    ensures ms % DAY != 0 ==> ReadTime(t).None? || MinusFirst(ReadTime(t).value.1)
  {
    var h, m, s, x := PartsBeforeEpoch(ms);
    if ms % DAY == 0 {
    } else {
      NegativeParts(h, m, s, x, rest);
    }
  }

  /** A file whose records are not before the epoch can be read exactly if its header is
      not either, or lies a whole number of days before it. */
  lemma FileReadsIff(instant: int, rs: seq<InputRecord>)
    requires NonNegativeTimes(rs)
    ensures ReadFile(DumpText(instant, rs)).Some? <==> instant >= 0 || instant % DAY == 0
    ensures instant >= 0 || instant % DAY == 0 ==>
              ReadFile(DumpText(instant, rs)) == Some((instant % DAY, AllReduced(rs)))
  {
    if instant >= 0 {
      FileRoundTrip(instant, rs);
    } else {
      var b := "]\n" + Concat(Lines(rs));
      TimeBeforeEpoch(instant, TimeThen(instant, b), b);
      if instant % DAY == 0 {
        FileRoundTrip(0, rs);
      } else {
        ExpectOf("version 2\n[", TimeThen(instant, b));
      }
    }
  }

  // ---- The two writers ----

  lemma NumberSplits(w: nat, n: int, sep: string, a: string, b: string)
    ensures NumberThen(w, n, sep + (a + b)) == NumberThen(w, n, sep + a) + b
  {
  }

  lemma PartsSplit(h: int, m: int, s: int, ms: int, a: string, b: string)
    ensures PartsThen(h, m, s, ms, a + b) == PartsThen(h, m, s, ms, a) + b
  {
    assert "" + (a + b) == a + b && "" + a == a;
    NumberSplits(3, ms, "", a, b);
    NumberSplits(2, s, ".", NumberThen(3, ms, a), b);
    NumberSplits(2, m, ":", NumberThen(2, s, "." + NumberThen(3, ms, a)), b);
    NumberSplits(2, h, ":", NumberThen(2, m, ":" + NumberThen(2, s, "." + NumberThen(3, ms, a))), b);
  }

  lemma TimeSplits(ms: int, a: string, b: string)
    ensures TimeThen(ms, a + b) == TimeThen(ms, a) + b
  {
    PartsSplit(Hours(ms), Minutes(ms), Seconds(ms), Millis(ms), a, b);
  }

  lemma FieldsSplit(r: InputRecord, a: string, b: string)
    ensures FieldsThen(r, a + b) == FieldsThen(r, a) + b
  {
    var k := KeysymThen(r.keysym, a);
    assert KeysymThen(r.keysym, a + b) == k + b;
    assert "" + (k + b) == k + b && "" + k == k;
    NumberSplits(0, r.event.value, "", k, b);
    var v := NumberThen(0, r.event.value, k);
    NumberSplits(0, r.event.code, " ", v, b);
    var c := NumberThen(0, r.event.code, " " + v);
    NumberSplits(0, r.event.evType, " ", c, b);
    NumberSplits(0, r.dev.Number(), " ", NumberThen(0, r.event.evType, " " + c), b);
  }

  lemma LineSplits(r: InputRecord, a: string, b: string)
    ensures LineThen(r, a + b) == LineThen(r, a) + b
  {
    assert "\n" + (a + b) == ("\n" + a) + b;
    FieldsSplit(r, "\n" + a, b);
    var f := FieldsThen(r, "\n" + a);
    assert "] passThrough " + (f + b) == ("] passThrough " + f) + b;
    TimeSplits(r.tsAbs, "] passThrough " + f, b);
  }

  lemma HeaderSplits(instant: int, a: string, b: string)
    ensures HeaderThen(instant, a + b) == HeaderThen(instant, a) + b
  {
    assert "]\n" + (a + b) == ("]\n" + a) + b;
    TimeSplits(instant, "]\n" + a, b);
  }

  lemma {:induction false} ConcatAppend(ts: seq<string>, t: string)
    ensures Concat(ts + [t]) == Concat(ts) + t
  {
    if ts == [] {
      assert ts + [t] == [t];
    } else {
      ConcatAppend(ts[1..], t);
      assert (ts + [t])[1..] == ts[1..] + [t];
    }
  }

  /** Pieces written from left to right, and the same text built from the right. */
  lemma PiecesMakeLine(time: string, dev: string, evType: string, code: string, value: string, end: string)
    ensures "[" + time + "] " + "passThrough " + dev + " " + evType + " " + code + " " + value + end
            == "[" + (time + ("] passThrough " + (dev + (" " + (evType + (" " + (code + (" " + (value + end)))))))))
  {
    var a := "[" + time + "] " + "passThrough ";
    var b := a + dev + " ";
    var c := b + evType + " ";
    var d := c + code + " ";
    Regroup(d, value, end);
    var v := value + end;
    Regroup(c + code, " ", v);
    Regroup(c, code, " " + v);
    var w := code + (" " + v);
    Regroup(b + evType, " ", w);
    Regroup(b, evType, " " + w);
    var x := evType + (" " + w);
    Regroup(a + dev, " ", x);
    Regroup(a, dev, " " + x);
    var y := dev + (" " + x);
    Regroup("[" + time, "] ", "passThrough ");
    assert "] " + "passThrough " == "] passThrough ";
    Regroup("[" + time, "] passThrough ", y);
    Regroup("[", time, "] passThrough " + y);
  }

  /** The two print statements write the same line. */
  lemma StreamedLineIsLine(r: InputRecord)
    ensures StreamedLine(r.tsAbs, r.dev, r.event, r.keysym) == LineThen(r, "")
  {
    var end := KeysymThen(r.keysym, "\n");
    var fields := FieldsThen(r, "\n");
    var dev, evType, code, value := Dec(r.dev.Number()), Dec(r.event.evType), Dec(r.event.code), Dec(r.event.value);
    PiecesMakeLine(TimeText(r.tsAbs), dev, evType, code, value, end);
    LineFromPieces(r, fields);
    FieldsFromPieces(r, dev, evType, code, value, end);
    StreamedFromPieces(r, dev, evType, code, value, end);
  }

  lemma StreamedFromPieces(r: InputRecord, dev: string, evType: string, code: string, value: string, end: string)
    requires end == KeysymThen(r.keysym, "\n")
    requires dev == Dec(r.dev.Number()) && evType == Dec(r.event.evType)
    requires code == Dec(r.event.code) && value == Dec(r.event.value)
    ensures StreamedLine(r.tsAbs, r.dev, r.event, r.keysym)
            == "[" + TimeText(r.tsAbs) + "] " + "passThrough " + dev + " " + evType + " " + code + " " + value + end
  {
    var line := "[" + TimeText(r.tsAbs) + "] " + "passThrough " + dev + " " + evType + " " + code + " " + value;
    var keysym := Dec(r.keysym);
    Regroup(line + " ", keysym, "\n");
    Regroup(line, " ", keysym + "\n");
  }

  lemma FieldsFromPieces(r: InputRecord, dev: string, evType: string, code: string, value: string, end: string)
    requires end == KeysymThen(r.keysym, "\n")
    requires dev == Dec(r.dev.Number()) && evType == Dec(r.event.evType)
    requires code == Dec(r.event.code) && value == Dec(r.event.value)
    ensures FieldsThen(r, "\n") == dev + (" " + (evType + (" " + (code + (" " + (value + end))))))
  {
  }

  lemma LineFromPieces(r: InputRecord, fields: string)
    requires fields == FieldsThen(r, "\n")
    ensures LineThen(r, "") == "[" + (TimeText(r.tsAbs) + ("] passThrough " + fields))
  {
    assert "\n" + "" == "\n";
    assert "" + ("] passThrough " + fields) == "] passThrough " + fields;
    TimeSplits(r.tsAbs, "", "] passThrough " + fields);
  }

  lemma StreamedHeaderIsHeader(start: int)
    ensures StreamedHeader(start) == HeaderThen(start, "")
  {
    var time, version := TimeText(start), "version " + "2" + "\n" + "[";
    assert version == "version 2\n[" && "]" + "\n" == "]\n" + "" == "" + "]\n" == "]\n";
    Regroup(version + time, "]", "\n");
    Regroup(version, time, "]\n");
    TimeSplits(start, "", "]\n");
  }

  /** Streaming line by line writes what dumping the same records at once would have
      written. */
  lemma WritersAgree(start: int, rs: seq<InputRecord>)
    ensures StreamText(start, rs) == DumpText(start, rs)
  {
    forall i | 0 <= i < |rs| ensures StreamedRecord(rs[i]) == DumpedLine(rs[i]) {
      StreamedLineIsLine(rs[i]);
    }
    MappedSame(StreamedRecord, DumpedLine, rs);
    StreamedHeaderIsHeader(start);
    HeaderAndLines(start, Lines(rs));
  }

  lemma HeaderAndLines(start: int, lines: seq<string>)
    ensures Concat([HeaderThen(start, "")] + lines) == HeaderThen(start, Concat(lines))
  {
    assert ([HeaderThen(start, "")] + lines)[1..] == lines;
    HeaderSplits(start, "", Concat(lines));
    assert "" + Concat(lines) == Concat(lines);
  }

  lemma StreamedMore(rs: seq<InputRecord>, more: seq<InputRecord>)
    ensures StreamedLines(rs + more) == StreamedLines(rs) + StreamedLines(more)
  {
    MappedConcat(StreamedRecord, rs, more);
  }

  /** Writing the lines of more records continues the file. */
  lemma StreamContinues(start: int, rs: seq<InputRecord>, more: seq<InputRecord>)
    ensures StreamWrites(start, rs + more) == StreamWrites(start, rs) + StreamedLines(more)
  {
    StreamedMore(rs, more);
  }

  /** One more record at the end of the buffer is one more line at the end of the dump. */
  lemma DumpGrows(start: int, rs: seq<InputRecord>, n: nat)
    requires n < |rs|
    ensures DumpText(start, rs[..n + 1]) == DumpText(start, rs[..n]) + LineThen(rs[n], "")
  {
    LinesGrow(rs, n);
    HeaderThenMore(start, Lines(rs[..n]), LineThen(rs[n], ""));
  }

  lemma LinesGrow(rs: seq<InputRecord>, n: nat)
    requires n < |rs|
    ensures Lines(rs[..n + 1]) == Lines(rs[..n]) + [LineThen(rs[n], "")]
  {
    MappedGrows(DumpedLine, rs, n);
  }

  lemma HeaderThenMore(start: int, lines: seq<string>, line: string)
    ensures HeaderThen(start, Concat(lines + [line])) == HeaderThen(start, Concat(lines)) + line
  {
    ConcatAppend(lines, line);
    HeaderSplits(start, Concat(lines), line);
  }

  /** The writing loop of processBuffer: the header, then one line per record. */
  method WriteDumpText(instant: int, rs: seq<InputRecord>) returns (text: string)
    ensures text == DumpText(instant, rs)
  {
    text := HeaderThen(instant, "");
    var i := 0;
    assert rs[..0] == [] && Concat(Lines([])) == "";
    while i < |rs|
      invariant 0 <= i <= |rs|
      invariant text == DumpText(instant, rs[..i])
    {
      DumpGrows(instant, rs, i);
      text := text + LineThen(rs[i], "");
      i := i + 1;
    }
    assert rs[..i] == rs;
  }

  // ---- Time of day as text ----

  function TwoDigits(n: nat): string
    requires n < 100
  {
    [DigitChar(n / 10), DigitChar(n % 10)]
  }

  function ThreeDigits(n: nat): string
    requires n < 1000
  {
    [DigitChar(n / 100)] + TwoDigits(n % 100)
  }

  lemma OneDigit(n: nat)
    requires n < 10
    ensures Padded(2, Dec(n)) == ['0', DigitChar(n)] && Padded(3, Dec(n)) == ['0', '0', DigitChar(n)]
  {
    var t := Digits(n);
    assert t == [DigitChar(n)];
    var u := ['0'] + t;
    assert Padded(2, t) == Padded(2, u) == u;
    var v := ['0'] + u;
    assert Padded(3, t) == Padded(3, u) == Padded(3, v) == v;
  }

  lemma DigitsOfTwo(n: nat)
    requires 10 <= n < 100
    ensures Digits(n) == TwoDigits(n)
  {
    assert Digits(n / 10) == [DigitChar(n / 10)];
  }

  lemma PaddedTwo(n: nat)
    requires n < 100
    ensures Padded(2, Dec(n)) == TwoDigits(n)
  {
    if n < 10 { OneDigit(n); } else { DigitsOfTwo(n); }
  }

  lemma PaddedThree(n: nat)
    requires n < 1000
    ensures Padded(3, Dec(n)) == ThreeDigits(n)
  {
    if n < 10 {
      OneDigit(n);
    } else if n < 100 {
      DigitsOfTwo(n);
      var u := ['0'] + Digits(n);
      assert Padded(3, Digits(n)) == Padded(3, u) == u;
    } else {
      DigitsOfTwo(n / 10);
      assert n / 10 / 10 == n / 100 && n / 10 % 10 == n % 100 / 10 && n % 10 == n % 100 % 10;
    }
  }

  function Clock(h: nat, m: nat, s: nat, ms: nat): string
    requires h < 100 && m < 100 && s < 100 && ms < 1000
  {
    TwoDigits(h) + (":" + (TwoDigits(m) + (":" + (TwoDigits(s) + ("." + ThreeDigits(ms))))))
  }

  /** current_time_str of a non-negative time is hh:mm:ss.mmm, twelve characters. */
  lemma TimeTextIsClock(ms: nat)
    ensures 0 <= Hours(ms) < 24 && 0 <= Minutes(ms) < 60 && 0 <= Seconds(ms) < 60 && 0 <= Millis(ms) < 1000
    ensures TimeText(ms) == Clock(Hours(ms), Minutes(ms), Seconds(ms), Millis(ms))
    ensures |TimeText(ms)| == 12
  {
    PartsMakeTime(ms);
    PaddedTwo(Hours(ms));
    PaddedTwo(Minutes(ms));
    PaddedTwo(Seconds(ms));
    PaddedThree(Millis(ms));
    assert ThreeDigits(Millis(ms)) + "" == ThreeDigits(Millis(ms));
  }

  /** Dictionary order of texts of one length. */
  ghost predicate Earlier(a: string, b: string)
    requires |a| == |b|
  {
    exists k :: 0 <= k < |a| && a[k] < b[k] && a[..k] == b[..k]
  }

  lemma EarlierAt(a: string, b: string, k: nat)
    requires |a| == |b| && k < |a| && a[k] < b[k] && a[..k] == b[..k]
    ensures Earlier(a, b)
  {
  }

  lemma EarlierFirst(a: string, b: string, x: string, y: string)
    requires |a| == |b| && |x| == |y|
    ensures Earlier(a, b) ==> Earlier(a + x, b + y)
    ensures a == b && Earlier(x, y) ==> Earlier(a + x, b + y)
  {
    if Earlier(a, b) {
      var k :| 0 <= k < |a| && a[k] < b[k] && a[..k] == b[..k];
      assert (a + x)[..k] == a[..k] && (b + y)[..k] == b[..k];
      EarlierAt(a + x, b + y, k);
    }
    if a == b && Earlier(x, y) {
      var k :| 0 <= k < |x| && x[k] < y[k] && x[..k] == y[..k];
      assert (a + x)[..|a| + k] == a + x[..k] && (b + y)[..|a| + k] == b + y[..k];
      EarlierAt(a + x, b + y, |a| + k);
    }
  }

  lemma TwoDigitsOrder(m: nat, n: nat)
    requires m < n < 100
    ensures Earlier(TwoDigits(m), TwoDigits(n))
  {
    if m / 10 < n / 10 { EarlierAt(TwoDigits(m), TwoDigits(n), 0); }
    else { EarlierAt(TwoDigits(m), TwoDigits(n), 1); }
  }

  lemma ThreeDigitsOrder(m: nat, n: nat)
    requires m < n < 1000
    ensures Earlier(ThreeDigits(m), ThreeDigits(n))
  {
    var a, b := [DigitChar(m / 100)], [DigitChar(n / 100)];
    if m / 100 < n / 100 {
      EarlierAt(a, b, 0);
    } else {
      TwoDigitsOrder(m % 100, n % 100);
    }
    EarlierFirst(a, b, TwoDigits(m % 100), TwoDigits(n % 100));
  }

  lemma FieldOrder(m: nat, n: nat, sep: string, x: string, y: string)
    requires m <= n < 100 && |x| == |y| && (m == n ==> Earlier(x, y))
    ensures Earlier(TwoDigits(m) + (sep + x), TwoDigits(n) + (sep + y))
  {
    if m < n { TwoDigitsOrder(m, n); } else { EarlierFirst(sep, sep, x, y); }
    EarlierFirst(TwoDigits(m), TwoDigits(n), sep + x, sep + y);
  }

  lemma ClockOf(ms: nat, t: string) returns (h: nat, m: nat, s: nat, x: nat)
    requires ms < DAY && t == TimeText(ms)
    ensures h < 24 && m < 60 && s < 60 && x < 1000 && t == Clock(h, m, s, x)
    ensures h * HOUR + m * 60000 + s * 1000 + x == ms
  {
    TimeTextIsClock(ms);
    PartsMakeTime(ms);
    h, m, s, x := Hours(ms), Minutes(ms), Seconds(ms), Millis(ms);
  }

  lemma TextOrder(a: nat, b: nat, t: string, u: string)
    requires a < b < DAY && t == TimeText(a) && u == TimeText(b)
    ensures |t| == |u| && Earlier(t, u)
  {
    var h, m, s, x := ClockOf(a, t);
    var h', m', s', x' := ClockOf(b, u);
    ClockOrder(h, m, s, x, h', m', s', x');
  }

  /** Within a day, dictionary order of time texts is the order of time. */
  lemma TimeTextOrder(a: nat, b: nat)
    requires a < b < DAY
    ensures |TimeText(a)| == |TimeText(b)| && Earlier(TimeText(a), TimeText(b))
  {
    TextOrder(a, b, TimeText(a), TimeText(b));
  }

  lemma ClockOrder(h: nat, m: nat, s: nat, x: nat, h': nat, m': nat, s': nat, x': nat)
    requires h < 24 && h' < 24 && m < 60 && m' < 60 && s < 60 && s' < 60 && x < 1000 && x' < 1000
    requires h * HOUR + m * 60000 + s * 1000 + x < h' * HOUR + m' * 60000 + s' * 1000 + x'
    ensures Earlier(Clock(h, m, s, x), Clock(h', m', s', x'))
  {
    var c, c' := "." + ThreeDigits(x), "." + ThreeDigits(x');
    var b, b' := TwoDigits(s) + c, TwoDigits(s') + c';
    var a, a' := TwoDigits(m) + (":" + b), TwoDigits(m') + (":" + b');
    if h == h' {
      if m == m' {
        if s == s' { ThreeDigitsOrder(x, x'); }
        FieldOrder(s, s', ".", ThreeDigits(x), ThreeDigits(x'));
      }
      FieldOrder(m, m', ":", b, b');
    }
    FieldOrder(h, h', ":", a, a');
  }
}
