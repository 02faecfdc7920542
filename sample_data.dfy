/** The offline sample feed (src/sampleData.js): 12-hour time-range labels and the sample
    response built from the sample entries. */
module SampleData {
  import opened Wrappers
  import opened Js
  import opened Text
  import opened AggregateEvents

  // ---------------------------------------------------------------------------------------
  // Time labels.

  /** "PM" from noon on, "AM" before. */
  function Period(hour: int): (p: string)
    ensures p == "PM" <==> hour >= 12
    ensures p == "AM" <==> hour < 12
  {
    if hour >= 12 then "PM" else "AM"
  }

  /** `hour % 12 === 0 ? 12 : hour % 12`, with JavaScript's remainder. */
  function DisplayHour(hour: int): (d: int)
    ensures hour >= 0 ==> 1 <= d <= 12
    ensures d != 0 && (d - hour) % 12 == 0
  {
    var r := Rem(hour, 12);
    if r == 0 then 12 else r
  }

  /** String.prototype.padStart: `c` repeated in front of `s` up to length `n`. */
  function PadStart(s: string, n: nat, c: char): (r: string)
    ensures |r| == if |s| >= n then |s| else n
    ensures r[|r| - |s|..] == s
    ensures forall i :: 0 <= i < |r| - |s| ==> r[i] == c
  {
    if |s| >= n then s else seq(n - |s|, _ => c) + s
  }

  /** toLabel: `<hour>:<minute, two digits at least> <period>`. */
  function ToLabel(hour: int, minute: int): string {
    IntToString(DisplayHour(hour)) + ":" + PadStart(IntToString(minute), 2, '0') + " " + Period(hour)
  }

  /** formatTimeRange: the two labels joined by " - ". */
  function FormatTimeRange(startHour: int, startMinute: int, endHour: int, endMinute: int): string {
    ToLabel(startHour, startMinute) + " - " + ToLabel(endHour, endMinute)
  }

  /** The 24-hour clock hour a displayed hour and a period stand for. */
  function To24(display: int, period: string): int {
    display % 12 + if period == "PM" then 12 else 0
  }

  /** The period of a label is its last two characters: "PM" exactly from noon on. */
  lemma LabelPeriod(hour: int, minute: int)
    ensures EndsWith(ToLabel(hour, minute), "PM") <==> hour >= 12
    ensures EndsWith(ToLabel(hour, minute), "AM") <==> hour < 12
  {
    var l := ToLabel(hour, minute);
    assert l[|l| - 2..] == Period(hour);
  }

  /** A minute label reads back as the minute: padding only adds leading zeros. */
  lemma PaddedMinuteReadsBack(minute: nat)
    ensures var m := PadStart(IntToString(minute), 2, '0');
            |m| >= 2 && (forall i :: 0 <= i < |m| ==> IsDigit(m[i])) && ParseDigits(m) == minute
  {
    var s := NatToString(minute);
    var m := PadStart(s, 2, '0');
    var z := m[..|m| - |s|];
    assert m == z + s;
    ParseDigitsLeadingZeros(z, s);
    ParseNatToString(minute);
  }

  /** From the displayed hour and the period the hour of the day can be read back. */
  lemma ClockHourReadsBack(hour: int)
    requires 0 <= hour < 24
    ensures 1 <= DisplayHour(hour) <= 12
    ensures To24(DisplayHour(hour), Period(hour)) == hour
  {
    assert Rem(hour, 12) == hour % 12;
  }

  /** A label of a time of day is made of a displayed hour in 1..12 printed without a leading
      zero, a two-digit (at least) minute and a period, and from these the hour and the minute can be read back. */
  lemma LabelReadsBack(hour: int, minute: int)
    requires 0 <= hour < 24 && 0 <= minute
    ensures var h := NatToString(DisplayHour(hour));
            var m := PadStart(NatToString(minute), 2, '0');
            && ToLabel(hour, minute) == h + ":" + m + " " + Period(hour)
            && ParseDigits(h) == DisplayHour(hour) && 1 <= DisplayHour(hour) <= 12 && h[0] != '0'
            && |m| >= 2 && ParseDigits(m) == minute
            && To24(DisplayHour(hour), Period(hour)) == hour
  {
    ClockHourReadsBack(hour);
    ParseNatToString(DisplayHour(hour));
    NatToStringNoLeadingZero(DisplayHour(hour));
    PaddedMinuteReadsBack(minute);
  }

  /** A time range starts with the start label and ends with the end label. */
  lemma TimeRangeParts(startHour: int, startMinute: int, endHour: int, endMinute: int)
    ensures var r := FormatTimeRange(startHour, startMinute, endHour, endMinute);
            StartsWith(r, ToLabel(startHour, startMinute) + " - ") && EndsWith(r, ToLabel(endHour, endMinute))
  {
    var r := FormatTimeRange(startHour, startMinute, endHour, endMinute);
    var a, b := ToLabel(startHour, startMinute) + " - ", ToLabel(endHour, endMinute);
    assert r == a + b;
    assert r[..|a|] == a;
    assert r[|r| - |b|..] == b;
  }

  // ---------------------------------------------------------------------------------------
  // The sample response.

  /** A sample entry: the event fields and the day offset from today's midnight. */
  datatype SampleEntry = SampleEntry(event: Event, offsetDays: Option<int>)

  /** The sample response: the entries with their dates set, and the count. */
  datatype SampleResponse = SampleResponse(events: seq<SampleEntry>, count: nat)

  /** createSampleData: every entry is copied, and only its `date` changes, to the day
      `offsetDays` (default 0) after today's midnight; `dayAt(offset)` is that day as
      YYYY-MM-DD. */
  function CreateSampleData(entries: seq<SampleEntry>, dayAt: int -> string): (r: SampleResponse)
    ensures |r.events| == |entries| == r.count
    ensures forall i :: 0 <= i < |entries| ==>
              && r.events[i].offsetDays == entries[i].offsetDays
              && r.events[i].event.(date := entries[i].event.date) == entries[i].event
              && r.events[i].event.date == Some(dayAt(entries[i].offsetDays.GetOr(0)))
  {
    var events := seq(|entries|, i requires 0 <= i < |entries| =>
                        entries[i].(event := entries[i].event.(date := Some(dayAt(entries[i].offsetDays.GetOr(0))))));
    SampleResponse(events, |events|)
  }
}
