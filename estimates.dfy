/** `estimateTime` and `formatDistance` of src/utils/locationUtils.ts: the
    travel time at an average 50 km/h and the distance, as Arabic text. */
module Estimates {
  import opened Types
  import opened Numbers

  const MinuteWord: string := " دقيقة"
  const HourWord: string := " ساعة"
  const HourAndWord: string := " ساعة و "
  const MetreWord: string := " متر"
  const KilometreWord: string := " كم"

  /** Whole minutes to drive distanceKm at 50 km/h, as Math.round gives them. */
  function EstimateMinutes(distanceKm: real): (total: int)
    ensures distanceKm * 1.2 - 0.5 < total as real <= distanceKm * 1.2 + 0.5
  {
    Round(distanceKm / 50.0 * 60.0)
  }

  /** The three shapes the time text takes. */
  datatype Duration = Minutes(total: int) | Hours(h: int) | HoursMinutes(h: int, m: int)

  function TotalMinutes(d: Duration): int
  {
    match d
    case Minutes(t) => t
    case Hours(h) => h * 60
    case HoursMinutes(h, m) => h * 60 + m
  }

  /** The branch estimateTime takes for a total: minutes alone below an hour,
      otherwise whole hours and, when they are not zero, the minutes left. */
  function SplitMinutes(total: int): (d: Duration)
    ensures TotalMinutes(d) == total
    ensures d.Minutes? <==> total < 60
    ensures d.Hours? ==> d.h >= 1
    ensures d.HoursMinutes? ==> d.h >= 1 && 0 < d.m < 60
  {
    if total < 60 then Minutes(total)
    else
      var h := total / 60;
      var m := total % 60;
      if m > 0 then HoursMinutes(h, m) else Hours(h)
  }

  function DurationText(d: Duration): string
  {
    match d
    case Minutes(t) => IntToString(t) + MinuteWord
    case Hours(h) => IntToString(h) + HourWord
    case HoursMinutes(h, m) => IntToString(h) + HourAndWord + IntToString(m) + MinuteWord
  }

  /** estimateTime(distanceKm). */
  function EstimateTime(distanceKm: real): string
  {
    DurationText(SplitMinutes(EstimateMinutes(distanceKm)))
  }

  /** Reads a time text back: a whole number, then " دقيقة", " ساعة", or
      " ساعة و " followed by a whole number and " دقيقة". */
  function ReadDuration(text: string): Option<Duration>
  {
    var i := SpaceIndex(text);
    match IntValue(text[..i])
    case None => None
    case Some(a) => ReadUnits(a, text[i..])
  }

  /** What follows the first number of a time text. */
  function ReadUnits(a: int, rest: string): Option<Duration>
  {
    if rest == MinuteWord then Some(Minutes(a))
    else if rest == HourWord then Some(Hours(a))
    else if |rest| >= |HourAndWord| && rest[..|HourAndWord|] == HourAndWord then
      var tail := rest[|HourAndWord|..];
      var j := SpaceIndex(tail);
      match IntValue(tail[..j])
      case None => None
      case Some(b) => if tail[j..] == MinuteWord then Some(HoursMinutes(a, b)) else None
    else None
  }

  /** A whole number followed by a word that starts with a space splits there. */
  lemma {:induction false} ReadNumberThen(n: int, w: string)
    requires |w| > 0 && w[0] == ' '
    ensures var t := IntToString(n) + w;
      SpaceIndex(t) == |IntToString(n)| && t[..SpaceIndex(t)] == IntToString(n)
      && t[SpaceIndex(t)..] == w && IntValue(t[..SpaceIndex(t)]) == Some(n)
  {
    IntToStringValue(n);
    SpaceIndexAppend(IntToString(n), w);
    var t := IntToString(n) + w;
    assert t[..|IntToString(n)|] == IntToString(n);
    assert t[|IntToString(n)|..] == w;
  }

  /** The hours-and-minutes units after the hours read back the minutes. */
  lemma {:induction false} ReadMinutesAfterHours(h: int, m: int)
    ensures ReadUnits(h, HourAndWord + (IntToString(m) + MinuteWord)) == Some(HoursMinutes(h, m))
  {
    var tail := IntToString(m) + MinuteWord;
    var rest := HourAndWord + tail;
    assert rest != MinuteWord && rest != HourWord by {
      assert |rest| > |MinuteWord| && |rest| > |HourWord|;
    }
    assert rest[..|HourAndWord|] == HourAndWord;
    assert rest[|HourAndWord|..] == tail;
    ReadNumberThen(m, MinuteWord);
  }

  lemma {:induction false} ReadHoursMinutesText(h: int, m: int)
    ensures ReadDuration(DurationText(HoursMinutes(h, m))) == Some(HoursMinutes(h, m))
  {
    var rest := HourAndWord + (IntToString(m) + MinuteWord);
    var text := IntToString(h) + rest;
    assert DurationText(HoursMinutes(h, m)) == text;
    ReadNumberThen(h, rest);
    assert ReadDuration(text) == ReadUnits(h, rest);
    ReadMinutesAfterHours(h, m);
  }

  /** Every time text reads back as the duration it was written from. */
  lemma {:induction false} ReadDurationText(d: Duration)
    ensures ReadDuration(DurationText(d)) == Some(d)
  {
    match d
    case Minutes(t) =>
      ReadNumberThen(t, MinuteWord);
      assert MinuteWord != HourWord;
    case Hours(h) =>
      ReadNumberThen(h, HourWord);
      assert MinuteWord != HourWord;
    case HoursMinutes(h, m) =>
      ReadHoursMinutesText(h, m);
  }

  /** The time text states the rounded number of minutes: minutes alone
      exactly when that is under an hour, otherwise hours and the remaining
      minutes (which are between 1 and 59 when they appear). */
  lemma EstimateTimeReadBack(distanceKm: real)
    ensures var r := ReadDuration(EstimateTime(distanceKm));
      r.Some? && TotalMinutes(r.value) == EstimateMinutes(distanceKm)
      && (r.value.Minutes? <==> EstimateMinutes(distanceKm) < 60)
      && (r.value.HoursMinutes? ==> 0 < r.value.m < 60)
  {
    ReadDurationText(SplitMinutes(EstimateMinutes(distanceKm)));
  }

  /** A distance of zero takes zero minutes. */
  lemma EstimateTimeZero()
    ensures EstimateTime(0.0) == "0" + MinuteWord
  {
  }

  /** formatDistance(distanceKm): rounded metres below one kilometre,
      otherwise kilometres with one decimal. */
  function FormatDistance(distanceKm: real): string
  {
    if distanceKm < 1.0 then IntToString(Round(distanceKm * 1000.0)) + MetreWord
    else Fixed1(distanceKm) + KilometreWord
  }

  /** What a distance text states: a unit and an amount. */
  datatype Shown = Metres(n: int) | Kilometres(v: real)

  /** Reads a distance text back: a number, a space, then the unit word. */
  function ReadDistance(text: string): Option<Shown>
  {
    var i := SpaceIndex(text);
    var rest := text[i..];
    if rest == MetreWord then
      match IntValue(text[..i])
      case None => None
      case Some(n) => Some(Metres(n))
    else if rest == KilometreWord then
      match TokenValue(text[..i])
      case None => None
      case Some(v) => Some(Kilometres(v))
    else None
  }

  /** The distance text reads back in metres exactly when the distance is
      under a kilometre, and its amount is the distance to the nearest metre
      (halves up) or to within half a tenth of a kilometre. */
  lemma {:induction false} FormatDistanceReadBack(distanceKm: real)
    ensures var r := ReadDistance(FormatDistance(distanceKm));
      r.Some? && (r.value.Metres? <==> distanceKm < 1.0)
      && (r.value.Metres? ==> r.value.n == Round(distanceKm * 1000.0))
      && (r.value.Kilometres? ==>
            distanceKm - 0.05 <= r.value.v <= distanceKm + 0.05
            && (r.value.v * 10.0).Floor as real == r.value.v * 10.0)
  {
    if distanceKm < 1.0 {
      ReadNumberThen(Round(distanceKm * 1000.0), MetreWord);
    } else {
      var f := Fixed1(distanceKm);
      var t := f + KilometreWord;
      Fixed1Value(distanceKm);
      SpaceIndexAppend(f, KilometreWord);
      assert t[..|f|] == f;
      assert t[|f|..] == KilometreWord;
      assert KilometreWord != MetreWord;
    }
  }
}
