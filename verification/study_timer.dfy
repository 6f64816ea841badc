/** The study timer: the shared timer store (elapsed seconds and whether the
    clock runs) and the hook's two renderings of the elapsed time. */
module StudyTimer {
  import opened Wrappers
  import opened Text

  // ---------------------------------------------------------------------------
  // The timer store.

  datatype TimerState = TimerState(time: nat, isPlaying: bool)

  /** The argument of `setIsPlaying`: a value, or a function of the previous value. */
  datatype PlayingUpdate = Value(b: bool) | Update(f: bool -> bool)

  function Init(): (st: TimerState)
    ensures st.time == 0 && !st.isPlaying
  {
    TimerState(0, false)
  }

  /** `setTime`: records the elapsed time and leaves the running flag alone. */
  function SetTime(st: TimerState, time: nat): (r: TimerState)
    ensures r.time == time && r.isPlaying == st.isPlaying
  {
    st.(time := time)
  }

  /** `setIsPlaying`: a function argument is applied to the current flag. */
  function SetIsPlaying(st: TimerState, u: PlayingUpdate): (r: TimerState)
    ensures r.time == st.time
    ensures u.Value? ==> r.isPlaying == u.b
    ensures u.Update? ==> r.isPlaying == u.f(st.isPlaying)
  {
    match u
    case Value(b) => st.(isPlaying := b)
    case Update(f) => st.(isPlaying := f(st.isPlaying))
  }

  /** `reset`: back to zero seconds, stopped. */
  function Reset(st: TimerState): (r: TimerState)
    ensures r == Init()
  {
    TimerState(0, false)
  }

  /** The hook's `start`. */
  function Start(st: TimerState): (r: TimerState)
    ensures r.isPlaying && r.time == st.time
  {
    SetIsPlaying(st, Value(true))
  }

  /** The hook's `pause`. */
  function Pause(st: TimerState): (r: TimerState)
    ensures !r.isPlaying && r.time == st.time
  {
    SetIsPlaying(st, Value(false))
  }

  /** The hook's `toggle`: flips the flag through the function form of `setIsPlaying`. */
  function Toggle(st: TimerState): (r: TimerState)
    ensures r.isPlaying != st.isPlaying && r.time == st.time
  {
    SetIsPlaying(st, Update(b => !b))
  }

  /** Toggling twice gives back the same state. */
  lemma ToggleInvolutive(st: TimerState)
    ensures Toggle(Toggle(st)) == st
  {
  }

  /** The function form with the constant function is the value form. */
  lemma UpdateAgreesWithValue(st: TimerState, f: bool -> bool)
    ensures SetIsPlaying(st, Update(f)) == SetIsPlaying(st, Value(f(st.isPlaying)))
  {
  }

  /** Resetting is idempotent, and start, pause and toggle never move the clock. */
  lemma ControlsKeepTime(st: TimerState)
    ensures Reset(Reset(st)) == Reset(st)
    ensures Start(st).time == Pause(st).time == Toggle(st).time == st.time
    ensures Pause(Start(st)) == Pause(st)
  {
  }

  /** `getMinutes`: the time in minutes to one decimal, counted here in tenths
      of a minute (six seconds each), rounded to nearest. */
  function MinutesTenths(time: nat): (r: nat)
    ensures time <= 6 * r + 3 && 6 * r <= time + 3
    ensures time % 6 == 3 ==> 6 * r == time + 3
  {
    (time + 3) / 6
  }

  // ---------------------------------------------------------------------------
  // Clock rendering.

  /** Whole hours, minutes of the hour and seconds of the minute. */
  function Hours(t: nat): nat { t / 3600 }
  function Minutes(t: nat): (m: nat) ensures m < 60 { (t % 3600) / 60 }
  function Seconds(t: nat): (s: nat) ensures s < 60 { t % 60 }

  lemma ClockParts(t: nat)
    ensures Hours(t) * 3600 + Minutes(t) * 60 + Seconds(t) == t
  {
  }

  /** Two-digit, zero-padded decimal text. */
  function Pad2(n: nat): string {
    PadStart(NatToString(n), 2, '0')
  }

  datatype FormattedTime = FormattedTime(hours: string, minutes: string, seconds: string)

  predicate AllDigits(s: string) {
    forall i :: 0 <= i < |s| ==> IsDigit(s[i])
  }

  /** `formatTime`: each part zero-padded to two digits. */
  function FormatTime(t: nat): (r: FormattedTime)
    ensures |r.minutes| == 2 && |r.seconds| == 2 && |r.hours| >= 2
    ensures AllDigits(r.hours) && AllDigits(r.minutes) && AllDigits(r.seconds)
  {
    Pad2Shape(Hours(t));
    Pad2Shape(Minutes(t));
    Pad2Shape(Seconds(t));
    FormattedTime(Pad2(Hours(t)), Pad2(Minutes(t)), Pad2(Seconds(t)))
  }

  lemma Pad2Shape(n: nat)
    ensures AllDigits(Pad2(n)) && |Pad2(n)| >= 2
    ensures n < 100 ==> |Pad2(n)| == 2
  {
    var s := NatToString(n);
    PadStartDigits(s, 2);
    assert |Pad2(n)| == if |s| >= 2 then |s| else 2;
    if n < 100 {
      NatToStringShort(n);
    }
  }

  /** Reading the three parts back as numbers gives the elapsed seconds. */
  lemma FormatTimeValue(t: nat)
    ensures var r := FormatTime(t);
            DigitsValue(r.hours) * 3600 + DigitsValue(r.minutes) * 60 + DigitsValue(r.seconds) == t
    ensures DigitsValue(FormatTime(t).minutes) < 60 && DigitsValue(FormatTime(t).seconds) < 60
  {
    PadValue(Hours(t));
    PadValue(Minutes(t));
    PadValue(Seconds(t));
    ClockParts(t);
  }

  lemma PadValue(n: nat)
    ensures AllDigits(Pad2(n))
    ensures DigitsValue(Pad2(n)) == n
  {
    ZeroPadValue(NatToString(n), 2);
    NatToStringValue(n);
  }

  // ---------------------------------------------------------------------------
  // Readable rendering: "1小时2分钟5秒".

  const HourUnit: string := "\U{5C0F}\U{65F6}"
  const MinuteUnit: string := "\U{5206}\U{949F}"
  const SecondUnit: string := "\U{79D2}"

  datatype TimeUnit = HourUnitPart | MinuteUnitPart | SecondUnitPart

  function UnitText(u: TimeUnit): (r: string)
    ensures |r| > 0 && !IsDigit(r[0])
  {
    match u
    case HourUnitPart => HourUnit
    case MinuteUnitPart => MinuteUnit
    case SecondUnitPart => SecondUnit
  }

  /** A unit's length in seconds. */
  function Weight(u: TimeUnit): (r: nat)
    ensures r > 0
  {
    match u
    case HourUnitPart => 3600
    case MinuteUnitPart => 60
    case SecondUnitPart => 1
  }

  /** The position of a unit in the rendering: hours, then minutes, then seconds. */
  function UnitOrder(u: TimeUnit): (r: nat)
    ensures r < 3
  {
    match u
    case HourUnitPart => 0
    case MinuteUnitPart => 1
    case SecondUnitPart => 2
  }

  /** One entry of `parts`: a number and its unit. */
  datatype Part = Part(n: nat, unit: TimeUnit)

  /** The `parts` list of `getReadableTime`: the hours when non-zero, the
      minutes when non-zero, then the seconds when they are non-zero or the
      list is still empty. */
  function ReadableParts(hours: nat, minutes: nat, seconds: nat): (ps: seq<Part>)
    ensures |ps| > 0
    ensures forall i, j :: 0 <= i < j < |ps| ==> UnitOrder(ps[i].unit) < UnitOrder(ps[j].unit)
    ensures forall p :: p in ps ==> p == Part(hours, HourUnitPart) || p == Part(minutes, MinuteUnitPart) || p == Part(seconds, SecondUnitPart)
    ensures Part(hours, HourUnitPart) in ps <==> hours > 0
    ensures Part(minutes, MinuteUnitPart) in ps <==> minutes > 0
    ensures Part(seconds, SecondUnitPart) in ps <==> seconds > 0 || (hours == 0 && minutes == 0)
  {
    var hs := if hours > 0 then [Part(hours, HourUnitPart)] else [];
    var ms := hs + if minutes > 0 then [Part(minutes, MinuteUnitPart)] else [];
    ms + if seconds > 0 || |ms| == 0 then [Part(seconds, SecondUnitPart)] else []
  }

  /** `parts.join("")`. */
  function Render(ps: seq<Part>): (r: string)
    ensures |ps| > 0 ==> |r| > 0
  {
    if ps == [] then "" else PartText(ps[0]) + Render(ps[1..])
  }

  /** One part as text, `${n}小时` and so on. */
  function PartText(p: Part): (r: string)
    ensures |r| > 0
  {
    NatToString(p.n) + UnitText(p.unit)
  }

  /** The seconds the parts stand for. */
  function Total(ps: seq<Part>): nat {
    if ps == [] then 0 else ps[0].n * Weight(ps[0].unit) + Total(ps[1..])
  }

  /** `getReadableTime`. */
  function ReadableTime(t: nat): (r: string)
    ensures |r| > 0
  {
    Render(ReadableParts(Hours(t), Minutes(t), Seconds(t)))
  }

  /** The parts add up to the time they were taken from. */
  lemma PartsTotal(hours: nat, minutes: nat, seconds: nat)
    ensures Total(ReadableParts(hours, minutes, seconds)) == hours * 3600 + minutes * 60 + seconds
  {
    var hs := if hours > 0 then [Part(hours, HourUnitPart)] else [];
    var ms := hs + if minutes > 0 then [Part(minutes, MinuteUnitPart)] else [];
    assert Total(hs) == hours * 3600 by {
      if hours > 0 { TotalAppend([], Part(hours, HourUnitPart)); }
    }
    assert Total(ms) == hours * 3600 + minutes * 60 by {
      if minutes > 0 { TotalAppend(hs, Part(minutes, MinuteUnitPart)); } else { assert ms == hs; }
    }
    if seconds > 0 || |ms| == 0 {
      TotalAppend(ms, Part(seconds, SecondUnitPart));
    } else {
      assert ReadableParts(hours, minutes, seconds) == ms;
    }
  }

  lemma {:induction false} TotalAppend(ps: seq<Part>, p: Part)
    ensures Total(ps + [p]) == Total(ps) + p.n * Weight(p.unit)
  {
    if ps != [] {
      assert (ps + [p])[1..] == ps[1..] + [p];
      TotalAppend(ps[1..], p);
    } else {
      assert [] + [p] == [p];
    }
  }

  /** The length of the run of digits at the start of `s`. */
  function DigitRun(s: string): (k: nat)
    ensures k <= |s|
  {
    if |s| == 0 || !IsDigit(s[0]) then 0 else 1 + DigitRun(s[1..])
  }

  /** The unit at the start of `rest`: its weight in seconds and its length. */
  function UnitAt(rest: string): Option<(nat, nat)> {
    if |rest| >= 2 && rest[..2] == HourUnit then Some((3600, 2))
    else if |rest| >= 2 && rest[..2] == MinuteUnit then Some((60, 2))
    else if |rest| >= 1 && rest[..1] == SecondUnit then Some((1, 1))
    else None
  }

  /** Reads back a readable time: numbers, each followed by its unit. */
  function ParseReadable(s: string): (r: Option<nat>)
    decreases |s|, 1
  {
    if |s| == 0 then Some(0) else ParseNumberAt(s, DigitRun(s))
  }

  /** Reads the number in the first k characters of `s`, the unit after it
      and the rest of the string. */
  function ParseNumberAt(s: string, k: nat): (r: Option<nat>)
    requires k <= |s|
    decreases |s|, 0
  {
    if k == 0 then None
    else
      var u := UnitAt(s[k..]);
      if u.None? || k + u.value.1 > |s| then None
      else Plus(DigitsValue(s[..k]) * u.value.0, ParseReadable(s[k + u.value.1..]))
  }

  function Plus(a: nat, b: Option<nat>): Option<nat> {
    if b.Some? then Some(a + b.value) else None
  }

  lemma {:induction false} DigitRunOf(ds: string, rest: string)
    requires AllDigits(ds)
    requires |rest| == 0 || !IsDigit(rest[0])
    ensures DigitRun(ds + rest) == |ds|
  {
    if |ds| > 0 {
      assert (ds + rest)[1..] == ds[1..] + rest;
      DigitRunOf(ds[1..], rest);
    }
  }

  /** A run of digits followed by a unit is read back as the digits' value
      times the unit's weight. */
  lemma ParseDigitsUnit(ds: string, unit: string, w: nat, rest: string)
    requires |ds| > 0 && AllDigits(ds)
    requires |unit| > 0 && !IsDigit(unit[0])
    requires UnitAt(unit + rest) == Some((w, |unit|))
    ensures ParseReadable(ds + unit + rest) == Plus(DigitsValue(ds) * w, ParseReadable(rest))
  {
    var s := ds + (unit + rest);
    assert ds + unit + rest == s;
    DigitRunOf(ds, unit + rest);
    assert s[..|ds|] == ds;
    assert s[|ds|..] == unit + rest;
    assert s[|ds| + |unit|..] == rest;
    NumberAtUnit(s, |ds|, w, |unit|);
  }

  /** `ParseNumberAt` when a unit follows the digits. */
  lemma NumberAtUnit(s: string, k: nat, w: nat, l: nat)
    requires 0 < k && k + l <= |s|
    requires UnitAt(s[k..]) == Some((w, l))
    requires DigitRun(s) == k
    ensures ParseReadable(s) == Plus(DigitsValue(s[..k]) * w, ParseReadable(s[k + l..]))
  {
    assert ParseReadable(s) == ParseNumberAt(s, k);
  }

  /** One number-and-unit piece is read back as the number times the unit's weight. */
  lemma ParsePiece(n: nat, unit: string, w: nat, rest: string)
    requires |unit| > 0 && !IsDigit(unit[0])
    requires UnitAt(unit + rest) == Some((w, |unit|))
    ensures ParseReadable(NatToString(n) + unit + rest) == Plus(n * w, ParseReadable(rest))
  {
    NatToStringValue(n);
    ParseDigitsUnit(NatToString(n), unit, w, rest);
  }

  lemma HourUnitAt(rest: string)
    ensures UnitAt(HourUnit + rest) == Some((3600, 2))
  {
    assert (HourUnit + rest)[..2] == HourUnit;
  }

  lemma MinuteUnitAt(rest: string)
    ensures UnitAt(MinuteUnit + rest) == Some((60, 2))
  {
    var r := MinuteUnit + rest;
    assert r[..2] == MinuteUnit;
    assert r[0] == MinuteUnit[0] != HourUnit[0];
  }

  lemma SecondUnitAt(rest: string)
    ensures UnitAt(SecondUnit + rest) == Some((1, 1))
  {
    var r := SecondUnit + rest;
    assert r[..1] == SecondUnit;
    assert r[0] == SecondUnit[0];
    assert |r| < 2 || (r[..2] != HourUnit && r[..2] != MinuteUnit) by {
      if |r| >= 2 {
        assert r[..2][0] == SecondUnit[0];
      }
    }
  }

  /** The unit text at the head of a string is recognised with its weight. */
  lemma UnitTextAt(u: TimeUnit, rest: string)
    ensures UnitAt(UnitText(u) + rest) == Some((Weight(u), |UnitText(u)|))
  {
    match u
    case HourUnitPart => HourUnitAt(rest);
    case MinuteUnitPart => MinuteUnitAt(rest);
    case SecondUnitPart => SecondUnitAt(rest);
  }

  /** Any list of parts reads back as the seconds it stands for. */
  lemma {:induction false} RenderParses(ps: seq<Part>)
    ensures ParseReadable(Render(ps)) == Some(Total(ps))
  {
    if ps != [] {
      var tail := Render(ps[1..]);
      assert Render(ps) == PartText(ps[0]) + tail;
      RenderParses(ps[1..]);
      PartParses(ps[0], tail);
    }
  }

  /** A part followed by more text reads back as its seconds plus the rest. */
  lemma PartParses(p: Part, rest: string)
    ensures ParseReadable(PartText(p) + rest) == Plus(p.n * Weight(p.unit), ParseReadable(rest))
  {
    UnitTextAt(p.unit, rest);
    ParsePiece(p.n, UnitText(p.unit), Weight(p.unit), rest);
  }

  /** The readable rendering loses nothing: it reads back as the elapsed seconds. */
  lemma ReadableRoundTrip(t: nat)
    ensures ParseReadable(ReadableTime(t)) == Some(t)
  {
    RenderParses(ReadableParts(Hours(t), Minutes(t), Seconds(t)));
    PartsTotal(Hours(t), Minutes(t), Seconds(t));
    ClockParts(t);
  }

  /** A single part renders as its own text. */
  lemma RenderSingle(p: Part)
    ensures Render([p]) == PartText(p)
  {
    assert [p][1..] == [];
  }

  /** Worked example: no time at all still shows the seconds. */
  lemma ReadableZeroExample()
    ensures ReadableTime(0) == "0" + SecondUnit
  {
    assert Hours(0) == 0 && Minutes(0) == 0 && Seconds(0) == 0;
    var p := Part(0, SecondUnitPart);
    assert ReadableParts(0, 0, 0) == [p];
    RenderSingle(p);
    assert NatToString(0) == "0";
  }

  /** Worked example: a whole hour drops the zero minutes and seconds. */
  lemma ReadableHourExample()
    ensures ReadableTime(3600) == "1" + HourUnit
  {
    assert Hours(3600) == 1 && Minutes(3600) == 0 && Seconds(3600) == 0;
    var p := Part(1, HourUnitPart);
    assert ReadableParts(1, 0, 0) == [p];
    RenderSingle(p);
    assert NatToString(1) == "1";
  }

  /** Worked example: all three units, largest first. */
  lemma ReadableFullExample()
    ensures ReadableTime(3725) == "1" + HourUnit + "2" + MinuteUnit + "5" + SecondUnit
  {
    assert Hours(3725) == 1 && Minutes(3725) == 2 && Seconds(3725) == 5;
    var h, m, sec := Part(1, HourUnitPart), Part(2, MinuteUnitPart), Part(5, SecondUnitPart);
    assert ReadableParts(1, 2, 5) == [h, m, sec];
    assert [h, m, sec][1..] == [m, sec];
    assert [m, sec][1..] == [sec];
    RenderSingle(sec);
    assert Render([h, m, sec]) == PartText(h) + PartText(m) + PartText(sec);
    assert NatToString(1) == "1" && NatToString(2) == "2" && NatToString(5) == "5";
  }

  /** Worked examples of the clock rendering. */
  lemma FormatExamples()
    ensures FormatTime(3725) == FormattedTime("01", "02", "05")
  {
    assert Hours(3725) == 1 && Minutes(3725) == 2 && Seconds(3725) == 5;
    PadOneDigit(1);
    PadOneDigit(2);
    PadOneDigit(5);
  }

  /** Hours are not capped at two digits. */
  lemma FormatLongExample()
    ensures FormatTime(360000) == FormattedTime("100", "00", "00")
  {
    assert Hours(360000) == 100 && Minutes(360000) == 0 && Seconds(360000) == 0;
    assert NatToString(10) == "10";
    assert NatToString(100) == "100";
    PadOneDigit(0);
  }

  lemma PadOneDigit(n: nat)
    requires n < 10
    ensures Pad2(n) == [DigitChar(0), DigitChar(n)]
  {
    var s := NatToString(n);
    assert s == [DigitChar(n)];
    PadStartStep(s, 2, '0');
  }
}
