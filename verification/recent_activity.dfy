/** The activity feed's two pure helpers: the relative-time text shown under
    each activity, and the colour of its dot. The clock reading and the
    absolute, locale-formatted date are parameters. */
module RecentActivity {
  import opened Text

  /** Whole seconds from `thenMs` to `nowMs`, rounded down as `Math.floor`
      rounds (towards negative infinity, also for activities dated in the
      future). */
  function DiffInSeconds(nowMs: int, thenMs: int): (d: int)
    ensures d * 1000 <= nowMs - thenMs < d * 1000 + 1000
  {
    (nowMs - thenMs) / 1000
  }

  /** Which wording the feed uses for an elapsed time. */
  datatype Elapsed =
    | Seconds(count: int)
    | Minutes(count: int)
    | Hours(count: int)
    | Days(count: int)
    | Absolute

  const Minute := 60
  const Hour := 3600
  const Day := 86400
  const Week := 604800

  /** The cascade of thresholds: under a minute (including negative
      differences) in seconds, under an hour in whole minutes, under a day in
      whole hours, under a week in whole days, otherwise an absolute date. */
  function Classify(diff: int): (e: Elapsed)
    ensures e.Seconds? <==> diff < Minute
    ensures e.Minutes? <==> Minute <= diff < Hour
    ensures e.Hours? <==> Hour <= diff < Day
    ensures e.Days? <==> Day <= diff < Week
    ensures e.Absolute? <==> Week <= diff
    ensures e.Seconds? ==> e.count == diff
    ensures e.Minutes? ==> 1 <= e.count <= 59 && e.count * Minute <= diff < (e.count + 1) * Minute
    ensures e.Hours? ==> 1 <= e.count <= 23 && e.count * Hour <= diff < (e.count + 1) * Hour
    ensures e.Days? ==> 1 <= e.count <= 6 && e.count * Day <= diff < (e.count + 1) * Day
  {
    if diff < Minute then Seconds(diff)
    else if diff < Hour then Minutes(diff / Minute)
    else if diff < Day then Hours(diff / Hour)
    else if diff < Week then Days(diff / Day)
    else Absolute
  }

  /** Coarseness of a wording: seconds < minutes < hours < days < absolute. */
  function Rank(e: Elapsed): nat
  {
    match e
    case Seconds(_) => 0
    case Minutes(_) => 1
    case Hours(_) => 2
    case Days(_) => 3
    case Absolute => 4
  }

  /** An older activity never gets a finer wording, nor a smaller count in
      the same wording. */
  lemma ClassifyMonotone(d1: int, d2: int)
    requires d1 <= d2
    ensures Rank(Classify(d1)) <= Rank(Classify(d2))
    ensures Rank(Classify(d1)) == Rank(Classify(d2)) && !Classify(d1).Absolute?
            ==> Classify(d1).count <= Classify(d2).count
  {
    var e1, e2 := Classify(d1), Classify(d2);
    assert e1.Minutes? && e2.Minutes? ==> e1.count * Minute < (e2.count + 1) * Minute;
    assert e1.Hours? && e2.Hours? ==> e1.count * Hour < (e2.count + 1) * Hour;
    assert e1.Days? && e2.Days? ==> e1.count * Day < (e2.count + 1) * Day;
  }

  /** The text shown for an elapsed time; `absolute` is the locale-formatted
      date the feed falls back to after a week. */
  function Label(e: Elapsed, absolute: string): (text: string)
    ensures e.Seconds? ==> text == IntToString(e.count) + "秒前"
    ensures e.Minutes? ==> text == IntToString(e.count) + "分鐘前"
    ensures e.Hours? ==> text == IntToString(e.count) + "小時前"
    ensures e.Days? ==> text == IntToString(e.count) + "天前"
    ensures e.Absolute? ==> text == absolute
  {
    match e
    case Seconds(n) => IntToString(n) + "秒前"
    case Minutes(n) => IntToString(n) + "分鐘前"
    case Hours(n) => IntToString(n) + "小時前"
    case Days(n) => IntToString(n) + "天前"
    case Absolute => absolute
  }

  /** `formatDate`: the text for an activity stamped `thenMs`, read at
      `nowMs`, stated on the elapsed milliseconds: whole seconds under a
      minute, whole minutes under an hour, whole hours under a day, whole
      days under a week, and the absolute date from a week on. */
  function FormatDate(nowMs: int, thenMs: int, absolute: string): (text: string)
    ensures nowMs - thenMs < 60_000 ==> text == IntToString((nowMs - thenMs) / 1000) + "秒前"
    ensures 60_000 <= nowMs - thenMs < 3_600_000 ==> text == IntToString((nowMs - thenMs) / 60_000) + "分鐘前"
    ensures 3_600_000 <= nowMs - thenMs < 86_400_000 ==> text == IntToString((nowMs - thenMs) / 3_600_000) + "小時前"
    ensures 86_400_000 <= nowMs - thenMs < 604_800_000 ==> text == IntToString((nowMs - thenMs) / 86_400_000) + "天前"
    ensures 604_800_000 <= nowMs - thenMs ==> text == absolute
  {
    var d := DiffInSeconds(nowMs, thenMs);
    SecondsThenUnits(nowMs - thenMs);
    Label(Classify(d), absolute)
  }

  /** Counting whole seconds and then whole minutes, hours or days gives
      the whole units of the milliseconds directly. */
  lemma SecondsThenUnits(ms: int)
    ensures (ms / 1000) / Minute == ms / 60_000
    ensures (ms / 1000) / Hour == ms / 3_600_000
    ensures (ms / 1000) / Day == ms / 86_400_000
  {
    var s := ms / 1000;
    assert s * 1000 <= ms < s * 1000 + 1000;
    var m, h, d := s / Minute, s / Hour, s / Day;
    assert m * 60 <= s < m * 60 + 60;
    assert m * 60_000 <= ms < m * 60_000 + 60_000;
    assert h * 3600 <= s < h * 3600 + 3600;
    assert h * 3_600_000 <= ms < h * 3_600_000 + 3_600_000;
    assert d * 86400 <= s < d * 86400 + 86400;
    assert d * 86_400_000 <= ms < d * 86_400_000 + 86_400_000;
  }

  /** Thirty seconds, ninety seconds, two hours and three days ago. */
  lemma FormatDateExamples(now: int, absolute: string)
    ensures FormatDate(now, now - 30_000, absolute) == "30秒前"
    ensures FormatDate(now, now - 90_000, absolute) == "1分鐘前"
    ensures FormatDate(now, now - 7_200_000, absolute) == "2小時前"
    ensures FormatDate(now, now - 259_200_000, absolute) == "3天前"
    ensures FormatDate(now, now - 604_800_000, absolute) == absolute
  {
    assert NatToString(30) == "30";
  }

  /** Within the first week the text determines the wording and the count:
      the character before the final "前" names the unit, and the numeral in
      front of it reads back to the count. */
  lemma {:induction false} RelativeLabelInjective(d1: int, d2: int, absolute: string)
    requires 0 <= d1 < Week && 0 <= d2 < Week
    requires Label(Classify(d1), absolute) == Label(Classify(d2), absolute)
    ensures Classify(d1) == Classify(d2)
  {
    var e1, e2 := Classify(d1), Classify(d2);
    var s1, s2 := IntToString(e1.count), IntToString(e2.count);
    var t := Label(e1, absolute);
    var u1, u2 := Suffix(e1), Suffix(e2);
    assert t == s1 + u1 && t == s2 + u2;
    assert t[|t| - 2] == u1[|u1| - 2] == u2[|u2| - 2];
    assert e1.Seconds? <==> e2.Seconds?;
    assert e1.Minutes? <==> e2.Minutes?;
    assert e1.Hours? <==> e2.Hours?;
    assert u1 == u2;
    assert s1 == t[..|t| - |u1|] == s2;
    NatToStringInjective(e1.count, e2.count);
  }

  function Suffix(e: Elapsed): string
  {
    match e
    case Seconds(_) => "秒前"
    case Minutes(_) => "分鐘前"
    case Hours(_) => "小時前"
    case Days(_) => "天前"
    case Absolute => ""
  }

  /** The four activity kinds; any other value is treated as a system event. */
  const FormCreated := "form_created"
  const FormSubmitted := "form_submitted"
  const CaseUpdated := "case_updated"
  const SystemEvent := "system"

  datatype Tone = Blue | Green | Amber | Gray

  /** `getActivityIcon`: the dot colour for an activity kind. */
  function ActivityTone(kind: string): (tone: Tone)
    ensures tone == Blue <==> kind == FormCreated
    ensures tone == Green <==> kind == FormSubmitted
    ensures tone == Amber <==> kind == CaseUpdated
    ensures tone == Gray <==> kind != FormCreated && kind != FormSubmitted && kind != CaseUpdated
  {
    if kind == FormCreated then Blue
    else if kind == FormSubmitted then Green
    else if kind == CaseUpdated then Amber
    else Gray
  }

  /** System events and unknown kinds look alike. */
  lemma UnknownKindLooksLikeSystem(kind: string)
    requires kind !in {FormCreated, FormSubmitted, CaseUpdated, SystemEvent}
    ensures ActivityTone(kind) == ActivityTone(SystemEvent)
  {
  }
}
