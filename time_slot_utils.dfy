/** Time arithmetic on "HH:MM" strings (src/core/utils/timeSlotUtils.ts): the
    slot grid, minute addition, half-open range tests, weekday lookups of
    operating hours and duration text. The strings are times of day in the
    extended format of ISO 8601 (hh:mm); the source compares them as strings. */
module TimeSlotUtils {
  import opened Text
  import opened Collections
  import opened Types

  /** A well-formed "HH:MM": two hour digits (00-99, hours past 23 occur when
      minutes are added), a colon, two minute digits 00-59. */
  predicate IsClock(s: string) {
    |s| == 5 && IsDigit(s[0]) && IsDigit(s[1]) && s[2] == ':' &&
    IsDigit(s[3]) && IsDigit(s[4]) && DigitValue(s[3]) < 6
  }

  function HourOf(s: string): (h: nat)
    requires IsClock(s)
    ensures h < 100
  {
    10 * DigitValue(s[0]) + DigitValue(s[1])
  }

  function MinuteOf(s: string): (m: nat)
    requires IsClock(s)
    ensures m < 60
  {
    10 * DigitValue(s[3]) + DigitValue(s[4])
  }

  /** `h * 60 + m` after `s.split(':').map(Number)`. */
  function ClockMinutes(s: string): (t: nat)
    requires IsClock(s)
    ensures t < 6000
  {
    HourOf(s) * 60 + MinuteOf(s)
  }

  /** `const [h, m] = s.split(':').map(Number)` and `h * 60 + m`: the first two
      fields as `Number` reads them (white space trimmed, an empty field 0),
      later fields ignored; `None` stands for the NaN that a missing second
      field, or a field `Number` cannot read, gives. */
  function ParseClock(s: string): Option<int> {
    ClockOfFields(Split(s, ':'))
  }

  /** `h * 60 + m` from the first two of the `split` fields. */
  function ClockOfFields(parts: seq<string>): Option<int> {
    var hours := if |parts| > 0 then NumberValue(parts[0]) else None;
    var mins := if |parts| > 1 then NumberValue(parts[1]) else None;
    if hours.Some? && mins.Some? then Some(hours.value * 60 + mins.value) else None
  }

  /** The source's formatting of a minute count: `Math.floor(t / 60)` and
      `t % 60`, each `toString().padStart(2, '0')`; hours are not reduced
      modulo 24. */
  function FormatClock(total: int): string {
    PadStart2(IntToString(total / 60)) + ":" + PadStart2(IntToString(JsRem(total, 60)))
  }

  /** A non-negative count is formatted as two zero-padded natural numbers. */
  lemma FormatClockNat(total: int)
    requires total >= 0
    ensures FormatClock(total) == Pad2(total / 60) + ":" + Pad2(total % 60)
  {
  }

  /** Two colon-free fields around a colon parse to hours * 60 + minutes, or
      to NaN when `Number` cannot read one of them. */
  lemma ParseFields(s: string, h: string, m: string)
    requires s == h + ":" + m
    requires forall i :: 0 <= i < |h| ==> h[i] != ':'
    requires forall i :: 0 <= i < |m| ==> m[i] != ':'
    ensures ParseClock(s) == if NumberValue(h).Some? && NumberValue(m).Some?
                             then Some(NumberValue(h).value * 60 + NumberValue(m).value) else None
  {
    SplitPrefix(s, h, m, ':');
    SplitNone(m, ':');
  }

  /** A padded integer field holds no colon. */
  lemma IntFieldNoColon(i: int)
    ensures forall k :: 0 <= k < |PadStart2(IntToString(i))| ==> PadStart2(IntToString(i))[k] != ':'
  {
    var n := if i < 0 then -i else i;
    NatToStringFacts(n);
    var d := NatToString(n);
    assert forall k :: 0 <= k < |d| ==> d[k] != ':' by {
      forall k | 0 <= k < |d| ensures d[k] != ':' { assert IsDigit(d[k]); }
    }
  }

  /** Two colon-free fields that `Number` reads as `a` and `b`, around a
      colon, parse to `a * 60 + b`. */
  lemma ParseNumbers(s: string, h: string, m: string, a: int, b: int)
    requires s == h + ":" + m
    requires forall i :: 0 <= i < |h| ==> h[i] != ':'
    requires forall i :: 0 <= i < |m| ==> m[i] != ':'
    requires NumberValue(h) == Some(a) && NumberValue(m) == Some(b)
    ensures ParseClock(s) == Some(a * 60 + b)
  {
    ParseFields(s, h, m);
  }

  /** Formatting a minute count and parsing it back gives the hours times 60
      plus the minutes field. */
  lemma FormatClockFields(total: int, q: int, r: int, s: string)
    requires q == total / 60 && r == JsRem(total, 60) && s == FormatClock(total)
    ensures ParseClock(s) == Some(q * 60 + r)
  {
    var h, m := PadStart2(IntToString(q)), PadStart2(IntToString(r));
    IntFieldNoColon(q);
    IntFieldNoColon(r);
    NumberValueInt(q);
    NumberValueInt(r);
    ParseNumbers(s, h, m, q, r);
  }

  /** Formatting a minute count and parsing it back gives the count; a
      negative count that is not a whole hour reads back an hour early,
      because the minutes field keeps the sign of the count. */
  lemma FormatClockParses(total: int, s: string)
    requires s == FormatClock(total)
    ensures ParseClock(s) == Some(if total >= 0 || total % 60 == 0 then total else total - 60)
  {
    var q, r := total / 60, JsRem(total, 60);
    FormatClockFields(total, q, r, s);
    FloorJsRem60(total, q, r);
  }

  /** A well-formed "HH:MM" is its two digit fields around a colon. */
  lemma ClockFields(s: string)
    requires IsClock(s)
    ensures s == s[..2] + ":" + s[3..]
    ensures |s[..2]| == 2 && |s[3..]| == 2 && AllDigits(s[..2]) && AllDigits(s[3..])
    ensures DecimalValue(s[..2]) == HourOf(s) && DecimalValue(s[3..]) == MinuteOf(s)
  {
    TwoDigitValue(s[..2]);
    TwoDigitValue(s[3..]);
  }

  /** Below 100 hours the formatted text is a well-formed "HH:MM" of that count. */
  lemma FormatClockIsClock(total: int)
    requires 0 <= total < 6000
    ensures IsClock(FormatClock(total)) && ClockMinutes(FormatClock(total)) == total
  {
    FormatClockNat(total);
    var h, m := total / 60, total % 60;
    Pad2Digits(h);
    Pad2Digits(m);
    var s := FormatClock(total);
    assert s == [DigitChar(h / 10), DigitChar(h % 10), ':', DigitChar(m / 10), DigitChar(m % 10)];
  }

  /** The formatted text keeps its colon three places from the end. */
  lemma FormatClockShape(total: int)
    requires total >= 0
    ensures |FormatClock(total)| >= 5 && FormatClock(total)[|FormatClock(total)| - 3] == ':'
  {
    FormatClockNat(total);
    Pad2Value(total / 60);
    Pad2Digits(total % 60);
  }

  /** `s.split(':')` on a well-formed "HH:MM": the hour and the minute field,
      which `Number` reads as the hours and the minutes. */
  lemma ClockSplit(s: string)
    requires IsClock(s)
    ensures Split(s, ':') == [s[..2], s[3..]]
    ensures NumberValue(s[..2]) == Some(HourOf(s)) && NumberValue(s[3..]) == Some(MinuteOf(s))
  {
    ClockFields(s);
    SplitFirst(s, ':', 2);
    SplitNone(s[3..], ':');
    NumberValueDigits(s[..2]);
    NumberValueDigits(s[3..]);
  }

  /** A well-formed "HH:MM" parses to its minute count. */
  lemma ClockParses(s: string)
    requires IsClock(s)
    ensures ParseClock(s) == Some(ClockMinutes(s))
  {
    ClockSplit(s);
  }

  /** Hours and minutes of a minute count. */
  lemma DivMod60(h: nat, m: nat)
    requires m < 60
    ensures (h * 60 + m) / 60 == h && (h * 60 + m) % 60 == m
  {
  }

  /** `Pad2` of a field of a well-formed "HH:MM" gives back its two characters. */
  lemma Pad2Field(c0: char, c1: char)
    requires IsDigit(c0) && IsDigit(c1)
    ensures Pad2(10 * DigitValue(c0) + DigitValue(c1)) == [c0, c1]
  {
    var n := 10 * DigitValue(c0) + DigitValue(c1);
    DivMod10(DigitValue(c0), DigitValue(c1));
    Pad2Digits(n);
    DigitRoundTrip(c0);
    DigitRoundTrip(c1);
  }

  /** A well-formed "HH:MM" is the formatting of its own minute count. */
  lemma ClockRoundTrip(s: string)
    requires IsClock(s)
    ensures FormatClock(ClockMinutes(s)) == s
  {
    var t := ClockMinutes(s);
    FormatClockNat(t);
    DivMod60(HourOf(s), MinuteOf(s));
    assert t / 60 == HourOf(s) && t % 60 == MinuteOf(s);
    Pad2Field(s[0], s[1]);
    Pad2Field(s[3], s[4]);
    assert Pad2(t / 60) == [s[0], s[1]] && Pad2(t % 60) == [s[3], s[4]];
    assert FormatClock(t) == [s[0], s[1]] + ":" + [s[3], s[4]];
    assert [s[0], s[1]] + ":" + [s[3], s[4]] == s;
  }

  /** The core fact behind every comparison in the source: on well-formed
      "HH:MM" strings, string order is minute order. */
  lemma ClockOrder(a: string, b: string)
    requires IsClock(a) && IsClock(b)
    ensures StrLess(a, b) <==> ClockMinutes(a) < ClockMinutes(b)
    ensures StrLessEq(a, b) <==> ClockMinutes(a) <= ClockMinutes(b)
    ensures a == b <==> ClockMinutes(a) == ClockMinutes(b)
  {
    ClockFields(a);
    ClockFields(b);
    var ha, hb := a[..2], b[..2];
    var ma, mb := a[3..], b[3..];
    assert a == ha + (":" + ma) && b == hb + (":" + mb);
    StrLessConcat(ha, ":" + ma, hb, ":" + mb);
    StrLessConcat(":", ma, ":", mb);
    DigitOrder(ha, hb);
    DigitOrder(ma, mb);
    StrLessTrichotomy(a, b);
  }

  /** The minutes of the grid `generateTimeSlots` produces: from `cur`, every
      `interval` minutes, strictly before `end`. */
  function SlotMinutes(cur: int, end: int, interval: int): (r: seq<int>)
    requires interval > 0 || cur >= end
    ensures cur >= end <==> r == []
    decreases end - cur
  {
    if cur >= end then [] else [cur] + SlotMinutes(cur + interval, end, interval)
  }

  /** Each of a sequence of minute counts formatted as the source does. */
  function Formatted(ms: seq<int>): (r: seq<string>)
    ensures |r| == |ms|
  {
    MapSeq(ms, FormatClock)
  }

  /** Formatting one more minute count appends its text. */
  lemma FormattedSnoc(ms: seq<int>, t: int)
    ensures Formatted(ms + [t]) == Formatted(ms) + [FormatClock(t)]
  {
    MapSeqConcat(ms, [t], FormatClock);
  }

  /** Formatting a minute count in front puts its text in front. */
  lemma FormattedCons(t: int, ms: seq<int>)
    ensures Formatted([t] + ms) == [FormatClock(t)] + Formatted(ms)
  {
    MapSeqConcat([t], ms, FormatClock);
  }

  /** The grid as the source builds it: each of those minutes formatted. */
  function SlotGrid(cur: int, end: int, interval: int): (r: seq<string>)
    requires interval > 0 || cur >= end
  {
    Formatted(SlotMinutes(cur, end, interval))
  }

  /** Entry `i` of the grid is `i` intervals after the start and before `end`. */
  lemma {:induction false} SlotMinutesAt(cur: int, end: int, interval: int, i: nat)
    requires interval > 0 || cur >= end
    requires i < |SlotMinutes(cur, end, interval)|
    ensures SlotMinutes(cur, end, interval)[i] == cur + i * interval < end
    ensures cur <= SlotMinutes(cur, end, interval)[i]
    decreases i
  {
    if i > 0 {
      SlotMinutesAt(cur + interval, end, interval, i - 1);
      MulStep(i, interval);
    }
  }

  /** The grid stops at the first time at or after `end`. */
  lemma {:induction false} SlotMinutesLength(cur: int, end: int, interval: int)
    requires interval > 0 || cur >= end
    ensures cur + |SlotMinutes(cur, end, interval)| * interval >= end
    decreases end - cur
  {
    if cur < end {
      SlotMinutesLength(cur + interval, end, interval);
      MulStep(|SlotMinutes(cur, end, interval)|, interval);
    }
  }

  lemma MulStep(i: int, k: int)
    ensures i * k == k + (i - 1) * k
  {
  }

  /** The grid's entries are well-formed times in `[cur, end)`, the `i`-th
      being `i` intervals after the start. */
  lemma SlotGridEntry(cur: int, end: int, interval: int, i: nat)
    requires interval > 0 || cur >= end
    requires 0 <= cur && end <= 6000
    requires i < |SlotGrid(cur, end, interval)|
    ensures IsClock(SlotGrid(cur, end, interval)[i])
    ensures ClockMinutes(SlotGrid(cur, end, interval)[i]) == cur + i * interval
    ensures cur <= ClockMinutes(SlotGrid(cur, end, interval)[i]) < end
  {
    var ms := SlotMinutes(cur, end, interval);
    SlotMinutesAt(cur, end, interval, i);
    assert SlotGrid(cur, end, interval)[i] == FormatClock(ms[i]);
    FormatClockIsClock(ms[i]);
  }

  /** Consecutive grid entries are exactly `interval` minutes apart. */
  lemma SlotGridStep(cur: int, end: int, interval: int, i: nat)
    requires interval > 0 || cur >= end
    requires 0 <= cur && end <= 6000
    requires i + 1 < |SlotGrid(cur, end, interval)|
    ensures IsClock(SlotGrid(cur, end, interval)[i]) && IsClock(SlotGrid(cur, end, interval)[i + 1])
    ensures ClockMinutes(SlotGrid(cur, end, interval)[i + 1]) == ClockMinutes(SlotGrid(cur, end, interval)[i]) + interval
  {
    SlotGridEntry(cur, end, interval, i);
    SlotGridEntry(cur, end, interval, i + 1);
    MulStep(i + 1, interval);
  }

  /** What the loop of `generateTimeSlots` needs to end: a positive interval,
      unless there is no slot at all (a time that reads as NaN, or opening at
      or after closing). */
  predicate SlotLoopEnds(openTime: string, closeTime: string, intervalMinutes: int) {
    var open, close := ParseClock(openTime), ParseClock(closeTime);
    open.Some? && close.Some? ==> intervalMinutes > 0 || open.value >= close.value
  }

  /** The slots `generateTimeSlots` returns: the grid between the parsed
      opening and closing minutes; none when either is NaN, since a comparison
      with NaN is false. */
  function TimeSlotGrid(openTime: string, closeTime: string, intervalMinutes: int): seq<string>
    requires SlotLoopEnds(openTime, closeTime, intervalMinutes)
  {
    var open, close := ParseClock(openTime), ParseClock(closeTime);
    if open.Some? && close.Some? then SlotGrid(open.value, close.value, intervalMinutes) else []
  }

  /** On well-formed times the loop ends when the interval is positive or the
      day is empty, and the slots are the grid between their minute counts. */
  lemma TimeSlotGridOfClocks(openTime: string, closeTime: string, intervalMinutes: int)
    requires IsClock(openTime) && IsClock(closeTime)
    ensures SlotLoopEnds(openTime, closeTime, intervalMinutes) <==>
            intervalMinutes > 0 || ClockMinutes(openTime) >= ClockMinutes(closeTime)
    ensures SlotLoopEnds(openTime, closeTime, intervalMinutes) ==>
            TimeSlotGrid(openTime, closeTime, intervalMinutes)
            == SlotGrid(ClockMinutes(openTime), ClockMinutes(closeTime), intervalMinutes)
  {
    ClockParses(openTime);
    ClockParses(closeTime);
  }

  /** Every slot between well-formed opening and closing times is a
      well-formed time inside `[openTime, closeTime)`. */
  lemma TimeSlotsInHours(openTime: string, closeTime: string, intervalMinutes: int)
    requires IsClock(openTime) && IsClock(closeTime) && SlotLoopEnds(openTime, closeTime, intervalMinutes)
    ensures forall i :: 0 <= i < |TimeSlotGrid(openTime, closeTime, intervalMinutes)| ==>
      IsClock(TimeSlotGrid(openTime, closeTime, intervalMinutes)[i]) &&
      IsTimeInRange(TimeSlotGrid(openTime, closeTime, intervalMinutes)[i], openTime, closeTime)
  {
    TimeSlotGridOfClocks(openTime, closeTime, intervalMinutes);
    var open, close := ClockMinutes(openTime), ClockMinutes(closeTime);
    var grid := SlotGrid(open, close, intervalMinutes);
    forall i | 0 <= i < |grid|
      ensures IsClock(grid[i]) && IsTimeInRange(grid[i], openTime, closeTime)
    {
      SlotGridEntry(open, close, intervalMinutes, i);
    }
  }

  /** `generateTimeSlots(openTime, closeTime, intervalMinutes)`. The source's
      loop does not end when the interval is not positive and the day is open. */
  method GenerateTimeSlots(openTime: string, closeTime: string, intervalMinutes: int) returns (slots: seq<string>)
    requires SlotLoopEnds(openTime, closeTime, intervalMinutes)
    ensures slots == TimeSlotGrid(openTime, closeTime, intervalMinutes)
  {
    var open, close := ParseClock(openTime), ParseClock(closeTime);
    if open.None? || close.None? {
      slots := [];
    } else {
      slots := SlotLoop(open.value, close.value, intervalMinutes);
    }
  }

  /** The loop of `generateTimeSlots`, from the opening minute count to the
      closing one: each minute count formatted, one interval apart. */
  method SlotLoop(openMinutes: int, endMinutes: int, intervalMinutes: int) returns (slots: seq<string>)
    requires intervalMinutes > 0 || openMinutes >= endMinutes
    ensures slots == SlotGrid(openMinutes, endMinutes, intervalMinutes)
  {
    slots := [];
    var currentMinutes := openMinutes;
    ghost var done: seq<int> := [];
    while currentMinutes < endMinutes
      invariant intervalMinutes > 0 || currentMinutes >= endMinutes
      invariant done + SlotMinutes(currentMinutes, endMinutes, intervalMinutes) == SlotMinutes(openMinutes, endMinutes, intervalMinutes)
      invariant slots == Formatted(done)
      decreases endMinutes - currentMinutes
    {
      var hours := currentMinutes / 60;
      var mins := JsRem(currentMinutes, 60);
      var slot := PadStart2(IntToString(hours)) + ":" + PadStart2(IntToString(mins));
      assert slot == FormatClock(currentMinutes);
      SlotMinutesStep(done, currentMinutes, endMinutes, intervalMinutes, openMinutes);
      FormattedSnoc(done, currentMinutes);
      slots := slots + [slot];
      done := done + [currentMinutes];
      currentMinutes := currentMinutes + intervalMinutes;
    }
    assert done == SlotMinutes(openMinutes, endMinutes, intervalMinutes);
  }

  /** One turn of the slot loop moves the current minute from the rest of the
      grid to the part already done. */
  lemma SlotMinutesStep(done: seq<int>, cur: int, end: int, interval: int, start: int)
    requires interval > 0 && cur < end
    requires done + SlotMinutes(cur, end, interval) == SlotMinutes(start, end, interval)
    ensures (done + [cur]) + SlotMinutes(cur + interval, end, interval) == SlotMinutes(start, end, interval)
  {
    assert SlotMinutes(cur, end, interval) == [cur] + SlotMinutes(cur + interval, end, interval);
  }

  /** `getOperatingHoursForDay`: the first entry for that weekday. */
  function GetOperatingHoursForDay(operatingHours: seq<OperatingHours>, dayOfWeek: int): (r: Option<OperatingHours>)
    ensures r.None? <==> forall i :: 0 <= i < |operatingHours| ==> operatingHours[i].dayOfWeek != dayOfWeek
    ensures r.Some? ==> exists i :: 0 <= i < |operatingHours| && operatingHours[i] == r.value &&
                                    r.value.dayOfWeek == dayOfWeek &&
                                    forall j :: 0 <= j < i ==> operatingHours[j].dayOfWeek != dayOfWeek
  {
    Find(operatingHours, (oh: OperatingHours) => oh.dayOfWeek == dayOfWeek)
  }

  /** `isShopOpenOnDay`: false when there is no entry for the day or the first
      one is closed. */
  function IsShopOpenOnDay(operatingHours: seq<OperatingHours>, dayOfWeek: int): (r: bool)
    ensures r <==> exists i :: 0 <= i < |operatingHours| && operatingHours[i].dayOfWeek == dayOfWeek &&
                              !operatingHours[i].isClosed &&
                              forall j :: 0 <= j < i ==> operatingHours[j].dayOfWeek != dayOfWeek
  {
    var hours := GetOperatingHoursForDay(operatingHours, dayOfWeek);
    if hours.Some? then !hours.value.isClosed else false
  }

  /** What `getAvailableTimeSlots` needs to end on that day: on an open day,
      what the slot loop needs for its hours. */
  predicate HoursGridOk(operatingHours: seq<OperatingHours>, dayOfWeek: int, intervalMinutes: int) {
    match GetOperatingHoursForDay(operatingHours, dayOfWeek)
    case None => true
    case Some(h) => h.isClosed || SlotLoopEnds(h.openTime, h.closeTime, intervalMinutes)
  }

  /** An open day's opening and closing times are well-formed "HH:MM". */
  predicate ClockHours(operatingHours: seq<OperatingHours>, dayOfWeek: int) {
    match GetOperatingHoursForDay(operatingHours, dayOfWeek)
    case None => true
    case Some(h) => h.isClosed || (IsClock(h.openTime) && IsClock(h.closeTime))
  }

  /** `getAvailableTimeSlots`: the day's slot grid, each slot available unless
      its time is in `bookedSlots`; no slots on a closed or missing day. */
  function GetAvailableTimeSlots(operatingHours: seq<OperatingHours>, dayOfWeek: int, intervalMinutes: int,
                                 bookedSlots: seq<string>): (r: seq<TimeSlot>)
    requires HoursGridOk(operatingHours, dayOfWeek, intervalMinutes)
    ensures !IsShopOpenOnDay(operatingHours, dayOfWeek) ==> r == []
    ensures IsShopOpenOnDay(operatingHours, dayOfWeek) ==>
      var h := GetOperatingHoursForDay(operatingHours, dayOfWeek).value;
      var grid := TimeSlotGrid(h.openTime, h.closeTime, intervalMinutes);
      |r| == |grid| &&
      forall i :: 0 <= i < |r| ==> r[i].time == grid[i] && (r[i].isAvailable <==> r[i].time !in bookedSlots)
  {
    var hours := GetOperatingHoursForDay(operatingHours, dayOfWeek);
    if hours.None? || hours.value.isClosed then []
    else
      var allSlots := TimeSlotGrid(hours.value.openTime, hours.value.closeTime, intervalMinutes);
      seq(|allSlots|, i requires 0 <= i < |allSlots| => TimeSlot(allSlots[i], allSlots[i] !in bookedSlots))
  }

  /** On an open day with well-formed hours, every offered slot is a
      well-formed time inside the opening hours. */
  lemma AvailableTimeSlotsInHours(operatingHours: seq<OperatingHours>, dayOfWeek: int, intervalMinutes: int,
                                  bookedSlots: seq<string>)
    requires HoursGridOk(operatingHours, dayOfWeek, intervalMinutes) && ClockHours(operatingHours, dayOfWeek)
    ensures IsShopOpenOnDay(operatingHours, dayOfWeek) ==>
      var h := GetOperatingHoursForDay(operatingHours, dayOfWeek).value;
      var r := GetAvailableTimeSlots(operatingHours, dayOfWeek, intervalMinutes, bookedSlots);
      forall i :: 0 <= i < |r| ==> IsClock(r[i].time) && IsTimeInRange(r[i].time, h.openTime, h.closeTime)
  {
    if IsShopOpenOnDay(operatingHours, dayOfWeek) {
      var h := GetOperatingHoursForDay(operatingHours, dayOfWeek).value;
      TimeSlotsInHours(h.openTime, h.closeTime, intervalMinutes);
    }
  }

  /** `addMinutesToTime`: the time `minutes` later, not wrapped at 24 hours;
      "NaN:NaN" when the time does not parse. */
  function AddMinutesToTime(time: string, minutes: nat): (r: string)
    ensures ParseClock(time).None? ==> r == "NaN:NaN"
    ensures ParseClock(time).Some? && ParseClock(time).value + minutes >= 0 ==>
      ParseClock(r) == Some(ParseClock(time).value + minutes) && |r| >= 5 && r[|r| - 3] == ':'
    ensures ParseClock(time).Some? && 0 <= ParseClock(time).value + minutes < 6000 ==> IsClock(r)
  {
    match ParseClock(time)
    case None => "NaN:NaN"
    case Some(t) =>
      var totalMinutes := t + minutes;
      var r := FormatClock(totalMinutes);
      FormatClockFacts(totalMinutes, r);
      r
  }

  /** What the clock text of a count from zero on gives back. */
  lemma FormatClockFacts(total: int, s: string)
    requires s == FormatClock(total)
    ensures total >= 0 ==> ParseClock(s) == Some(total) && |s| >= 5 && s[|s| - 3] == ':'
    ensures 0 <= total < 6000 ==> IsClock(s)
  {
    FormatClockParses(total, s);
    if total >= 0 {
      FormatClockShape(total);
      if total < 6000 {
        FormatClockIsClock(total);
      }
    }
  }

  /** A missing or unreadable minute field makes the time NaN. */
  lemma ParseClockNaN()
    ensures ParseClock("9").None? && ParseClock("9:x").None?
  {
    SplitNone("9", ':');
    ParseFields("9:x", "9", "x");
  }

  /** An empty minute field reads as 0. */
  lemma ParseClockEmptyMinutes()
    ensures ParseClock("10:") == Some(600)
  {
    NumberValueDigits("10");
    ParseNumbers("10:", "10", "", 10, 0);
  }

  /** White space around a field does not matter. */
  lemma ParseClockSpaces()
    ensures ParseClock(" 9:30") == Some(570)
  {
    assert Trim(" 9") == "9";
    NumberValueDigits("9");
    NumberValueDigits("30");
    ParseNumbers(" 9:30", " 9", "30", 9, 30);
  }

  /** A third field is ignored. */
  lemma ParseClockThirdField(h: string, m: string, rest: string, s: string)
    requires forall i :: 0 <= i < |h| ==> h[i] != ':'
    requires forall i :: 0 <= i < |m| ==> m[i] != ':'
    requires s == h + ":" + m + ":" + rest
    ensures ParseClock(s) == ParseClock(h + ":" + m)
  {
    var tail := m + ":" + rest;
    assert s == h + [':'] + tail;
    SplitPrefix(s, h, tail, ':');
    SplitPrefix(tail, m, rest, ':');
    SplitPrefix(h + ":" + m, h, m, ':');
    SplitNone(m, ':');
    FirstTwoFields(Split(s, ':'), Split(h + ":" + m, ':'));
  }

  /** Only the first two fields count. */
  lemma FirstTwoFields(parts: seq<string>, others: seq<string>)
    requires |parts| > 1 && |others| > 1 && parts[..2] == others[..2]
    ensures ClockOfFields(parts) == ClockOfFields(others)
  {
    assert parts[0] == others[0] && parts[1] == others[1];
  }

  /** Before midnight of the first day the minutes field takes the sign of
      the count, so the text reads back an hour early unless the count is a
      whole number of hours. */
  lemma AddMinutesBeforeMidnight(time: string, minutes: nat)
    requires ParseClock(time).Some? && ParseClock(time).value + minutes < 0
    ensures var t := ParseClock(time).value + minutes;
      ParseClock(AddMinutesToTime(time, minutes)) == Some(if t % 60 == 0 then t else t - 60)
  {
    var t := ParseClock(time).value + minutes;
    FormatClockParses(t, FormatClock(t));
  }

  /** Minute addition does not wrap at midnight. */
  lemma AddMinutesPastMidnight()
    ensures AddMinutesToTime("23:30", 60) == "24:30"
  {
    ClockParses("23:30");
    assert ClockMinutes("24:30") == 1470;
    ClockRoundTrip("24:30");
  }

  /** `isTimeInRange`: `start <= time < end` as strings, which on well-formed
      times is the half-open minute interval. */
  function IsTimeInRange(time: string, startTime: string, endTime: string): (r: bool)
    ensures IsClock(time) && IsClock(startTime) && IsClock(endTime) ==>
      (r <==> ClockMinutes(startTime) <= ClockMinutes(time) < ClockMinutes(endTime))
  {
    InRangeOfClocks(time, startTime, endTime);
    StrLessEq(startTime, time) && StrLess(time, endTime)
  }

  /** On well-formed times the string test `start <= time < end` is the
      half-open minute interval. */
  lemma InRangeOfClocks(time: string, startTime: string, endTime: string)
    ensures IsClock(time) && IsClock(startTime) && IsClock(endTime) ==>
      (StrLessEq(startTime, time) && StrLess(time, endTime) <==>
       ClockMinutes(startTime) <= ClockMinutes(time) < ClockMinutes(endTime))
  {
    if IsClock(time) && IsClock(startTime) && IsClock(endTime) {
      ClockOrder(startTime, time);
      ClockOrder(time, endTime);
    }
  }

  /** `formatDuration`: "N분" below an hour, "H시간" on whole hours, "H시간 M분"
      otherwise, with H and M the hours and minutes of the count. */
  function FormatDuration(minutes: nat): (r: string)
    ensures minutes < 60 ==> r == NatToString(minutes) + "분"
    ensures minutes >= 60 && minutes % 60 == 0 ==> r == NatToString(minutes / 60) + "시간"
    ensures minutes >= 60 && minutes % 60 != 0 ==>
      r == NatToString(minutes / 60) + "시간 " + NatToString(minutes % 60) + "분"
  {
    if minutes < 60 then NatToString(minutes) + "분"
    else
      var hours := minutes / 60;
      var mins := minutes % 60;
      if mins > 0 then NatToString(hours) + "시간 " + NatToString(mins) + "분"
      else NatToString(hours) + "시간"
  }

  /** A formatted duration reads back (`ReadDuration`) as the same minutes. */
  lemma FormatDurationReadsBack(minutes: nat, r: string)
    requires r == FormatDuration(minutes)
    ensures ReadDuration(r) == Some(minutes)
  {
    if minutes < 60 {
      ReadMinutesText(minutes, r);
    } else if minutes % 60 == 0 {
      ReadHoursText(minutes / 60, r);
    } else {
      var h, m := minutes / 60, minutes % 60;
      assert minutes == 60 * h + m;
      var tail := "시간 " + NatToString(m) + "분";
      assert r == NatToString(h) + tail;
      ReadHoursMinutesText(h, m, tail, r);
    }
  }

  /** Reads a duration text back: "N분" is N minutes, "H시간" is H hours and
      "H시간 M분" is H hours and M minutes. */
  function ReadDuration(s: string): Option<nat> {
    var ds := LeadingDigits(s);
    if ds == [] then None else ReadUnit(DecimalValue(ds), s[|ds|..])
  }

  /** What follows the leading number of a duration text. */
  function ReadUnit(n: nat, rest: string): Option<nat> {
    if rest == "분" then Some(n)
    else if rest == "시간" then Some(60 * n)
    else if |rest| > 3 && rest[..3] == "시간 " then ReadMinutesPart(n, rest[3..])
    else None
  }

  /** The "M분" after "H시간 ". */
  function ReadMinutesPart(hours: nat, rest: string): Option<nat> {
    var ms := LeadingDigits(rest);
    if ms != [] && rest[|ms|..] == "분" then Some(60 * hours + DecimalValue(ms)) else None
  }

  lemma ReadMinutesText(n: nat, r: string)
    requires r == NatToString(n) + "분"
    ensures ReadDuration(r) == Some(n)
  {
    LeadingNumber(n, "분");
  }

  lemma ReadHoursText(h: nat, r: string)
    requires r == NatToString(h) + "시간"
    ensures ReadDuration(r) == Some(60 * h)
  {
    LeadingNumber(h, "시간");
  }

  lemma ReadHoursMinutesText(h: nat, m: nat, tail: string, r: string)
    requires tail == "시간 " + NatToString(m) + "분" && r == NatToString(h) + tail
    ensures ReadDuration(r) == Some(60 * h + m)
  {
    LeadingNumber(h, tail);
    HoursMinutesUnit(h, m, tail);
  }

  lemma HoursMinutesUnit(h: nat, m: nat, tail: string)
    requires tail == "시간 " + NatToString(m) + "분"
    ensures ReadUnit(h, tail) == Some(60 * h + m)
  {
    NatToStringFacts(m);
    assert |tail| > 3 && tail[..3] == "시간 ";
    MinutesPartRead(h, m, tail[3..]);
  }

  lemma MinutesPartRead(h: nat, m: nat, rest: string)
    requires rest == NatToString(m) + "분"
    ensures ReadMinutesPart(h, rest) == Some(60 * h + m)
  {
    LeadingNumber(m, "분");
  }

  /** The digits of `n` lead a text that goes on with a non-digit. */
  lemma LeadingNumber(n: nat, tail: string)
    requires tail != [] && !IsDigit(tail[0])
    ensures LeadingDigits(NatToString(n) + tail) == NatToString(n)
    ensures (NatToString(n) + tail)[|NatToString(n)|..] == tail
    ensures NatToString(n) != [] && DecimalValue(NatToString(n)) == n
  {
    NatToStringFacts(n);
    LeadingDigitsConcat(NatToString(n), tail);
  }

  lemma {:induction false} LeadingDigitsConcat(a: string, b: string)
    requires AllDigits(a) && b != [] && !IsDigit(b[0])
    ensures LeadingDigits(a + b) == a
    decreases |a|
  {
    if a != [] {
      LeadingDigitsConcat(a[1..], b);
      assert (a + b)[1..] == a[1..] + b;
    }
  }
}
