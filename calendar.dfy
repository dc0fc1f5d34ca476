/** The event list the calendar page shows: every exam as a timed event coloured
    by whether its date has passed, then the Bavarian school holidays from
    ferien-api.de as all-day background bands, or a fixed backup list when the
    service contributed none. */
module Calendar {
  import opened Wrappers
  import opened PyStrings
  import opened Decimal
  import opened Dates
  import opened ExamStore

  /** One JSON object of the events feed. */
  datatype Event =
    | ExamEvent(id: int, title: string, start: string, end: string, backgroundColor: string, borderColor: string)
    | BackgroundEvent(start: string, end: string, rendering: string, backgroundColor: string, display: string)

  const PastColor: string := "#dc3545"
  const FutureColor: string := "#007bff"

  /** The event for one exam row, given today's date as `YYYY-MM-DD`. */
  function ExamToEvent(e: Exam, today: string): (ev: Event)
    ensures ev.ExamEvent? && ev.id == e.id && ev.title == e.subject
    ensures ev.start == e.date + "T" + e.startTime && ev.end == e.date + "T" + e.endTime
    ensures ev.backgroundColor == PastColor <==> LexLess(e.date, today)
    ensures ev.backgroundColor == FutureColor <==> !LexLess(e.date, today)
    ensures ev.borderColor == ev.backgroundColor
  {
    var color := if LexLess(e.date, today) then PastColor else FutureColor;
    ExamEvent(e.id, e.subject, e.date + "T" + e.startTime, e.date + "T" + e.endTime, color, color)
  }

  function Background(start: string, end: string): Event {
    BackgroundEvent(start, end, "background", "black", "background")
  }

  // ---------------------------------------------------------------------
  // The holiday service

  /** An element of the JSON list the service returns: an object whose `start`
      and `end` keys are strings or absent, or something that is not an object
      (on which `holiday.get` raises). */
  datatype JsonItem = Record(start: Option<string>, end: Option<string>) | NotAnObject

  /** What `requests.get(...)` gave: it raised, or a response with its status code
      and its body as a JSON list (None when `response.json()` raises). */
  datatype ApiOutcome = RequestFailed | Response(status: int, body: Option<seq<JsonItem>>)

  /** What the loop does with one element. */
  datatype Step = Skip | Emit(event: Event) | Abort

  const SkippedDay: string := "2025-11-19"

  /** Python truthiness of a `dict.get` result that is a string or None. */
  predicate Truthy(v: Option<string>) {
    v.Some? && v.value != []
  }

  /** One iteration of the holiday loop: skip the 2025-11-19 entry and entries
      without both dates, otherwise turn the inclusive end into an exclusive one;
      any exception there ends the loop. */
  function Classify(h: JsonItem): (st: Step)
    ensures st.Skip? <==> (h.Record? &&
      ((h.start == Some(SkippedDay) && h.end == Some(SkippedDay)) || !Truthy(h.start) || !Truthy(h.end)))
    ensures st.Emit? ==> h.Record? && st.event.BackgroundEvent? && Some(st.event.start) == h.start
    ensures st.Abort? <==>
      (h.NotAnObject? || (!st.Skip? && (ParseIso(h.end.value).None? || NextDay(ParseIso(h.end.value).value).None?)))
  {
    match h
    case NotAnObject => Abort
    case Record(start, end) =>
      if start == Some(SkippedDay) && end == Some(SkippedDay) then Skip
      else if !Truthy(start) || !Truthy(end) then Skip
      else match ParseIso(end.value)
        case None => Abort
        case Some(d) =>
          match NextDay(d)
          case None => Abort
          case Some(n) => Emit(Background(start.value, FormatIso(n)))
  }

  /** Events drawn as all-day background bands, as every holiday is. */
  predicate AllBackground(evs: seq<Event>) {
    forall k :: 0 <= k < |evs| ==> evs[k].BackgroundEvent?
  }

  /** The events the loop appends before it finishes or an exception ends it. */
  function Emitted(items: seq<JsonItem>): (r: seq<Event>)
    ensures |r| <= |items|
    ensures AllBackground(r)
  {
    if items == [] then []
    else match Classify(items[0])
      case Skip => Emitted(items[1..])
      case Emit(ev) =>
        var rest := Emitted(items[1..]);
        AllBackgroundCons(ev, rest);
        [ev] + rest
      case Abort => []
  }

  lemma AllBackgroundCons(ev: Event, evs: seq<Event>)
    requires ev.BackgroundEvent? && AllBackground(evs)
    ensures AllBackground([ev] + evs)
  {
    var s := [ev] + evs;
    forall k | 0 <= k < |s| ensures s[k].BackgroundEvent? {
      if k > 0 { assert s[k] == evs[k - 1]; }
    }
  }

  /** Holiday events appended from the service; `ferien_eklendi` is whether there are any. */
  function ApiEvents(api: ApiOutcome): (r: seq<Event>)
    ensures !(api.Response? && api.status == 200 && api.body.Some?) ==> r == []
    ensures r != [] ==> |r| <= |api.body.value|
    ensures AllBackground(r)
  {
    if api.Response? && api.status == 200 && api.body.Some? then Emitted(api.body.value) else []
  }

  /** The hard-coded backup ranges, already with exclusive ends. */
  const BackupRanges: seq<(string, string)> := [
    ("2025-03-03", "2025-03-08"),
    ("2025-04-14", "2025-04-26"),
    ("2025-06-10", "2025-06-21"),
    ("2025-08-01", "2025-09-16"),
    ("2025-11-03", "2025-11-08"),
    ("2025-12-22", "2026-01-06")
  ]

  function BackupEvents(): seq<Event> {
    seq(|BackupRanges|, i requires 0 <= i < |BackupRanges| => Background(BackupRanges[i].0, BackupRanges[i].1))
  }

  /** The holiday part of the feed: never empty, made of background events, and
      either what the service gave or the backup list. */
  function HolidayEvents(api: ApiOutcome): (r: seq<Event>)
    ensures r != []
    ensures AllBackground(r)
    ensures r == ApiEvents(api) || r == BackupEvents()
  {
    if ApiEvents(api) == [] then BackupEvents() else ApiEvents(api)
  }

  function ExamEvents(exams: seq<Exam>, today: string): seq<Event> {
    seq(|exams|, i requires 0 <= i < |exams| => ExamToEvent(exams[i], today))
  }

  /** The list the events route is meant to return for exams listed by date. */
  function IntendedEvents(exams: seq<Exam>, today: string, api: ApiOutcome): seq<Event> {
    ExamEvents(exams, today) + HolidayEvents(api)
  }

  // ---------------------------------------------------------------------
  // The body of `events()` after the query, as the loops that build `events_list`.

  method BuildEvents(exams: seq<Exam>, today: string, api: ApiOutcome)
    returns (events: seq<Event>, holidaysAdded: bool)
    ensures |events| > |exams|
    ensures forall i :: 0 <= i < |exams| ==>
      && events[i].ExamEvent?
      && events[i].id == exams[i].id
      && events[i].title == exams[i].subject
      && events[i].start == exams[i].date + "T" + exams[i].startTime
      && events[i].end == exams[i].date + "T" + exams[i].endTime
      && (events[i].backgroundColor == PastColor <==> LexLess(exams[i].date, today))
      && (events[i].backgroundColor == FutureColor <==> !LexLess(exams[i].date, today))
      && events[i].borderColor == events[i].backgroundColor
    ensures holidaysAdded <==> ApiEvents(api) != []
    ensures events[|exams|..] == (if holidaysAdded then ApiEvents(api) else BackupEvents())
    ensures events == IntendedEvents(exams, today, api)
  {
    events := AppendExams([], exams, today);
    holidaysAdded := false;
    if api.Response? && api.status == 200 && api.body.Some? {
      events, holidaysAdded := AppendHolidays(events, api.body.value);
    }
    if !holidaysAdded {
      events := AppendBackup(events);
    }
    assert events[..|exams|] == ExamEvents(exams, today);
  }

  /** The loop over the exam rows. */
  method AppendExams(events0: seq<Event>, exams: seq<Exam>, today: string) returns (events: seq<Event>)
    ensures events == events0 + ExamEvents(exams, today)
  {
    events := events0;
    var i := 0;
    while i < |exams|
      invariant 0 <= i <= |exams|
      invariant events == events0 + ExamEvents(exams[..i], today)
    {
      events := events + [ExamToEvent(exams[i], today)];
      i := i + 1;
      assert exams[..i] == exams[..i - 1] + [exams[i - 1]];
    }
    assert exams[..i] == exams;
  }

  /** The loop over the service's list inside its `try`: it appends the events the
      elements give, sets `ferien_eklendi` on each, and stops at the first
      element that raises. */
  method AppendHolidays(events0: seq<Event>, items: seq<JsonItem>) returns (events: seq<Event>, added: bool)
    ensures events == events0 + Emitted(items)
    ensures added <==> Emitted(items) != []
  {
    events := events0;
    added := false;
    var k := 0;
    var stopped := false;
    while k < |items| && !stopped
      invariant 0 <= k <= |items|
      invariant !stopped ==> events0 + Emitted(items) == events + Emitted(items[k..])
      invariant stopped ==> events0 + Emitted(items) == events
      invariant |events| >= |events0|
      invariant added <==> |events| > |events0|
    {
      var st := Classify(items[k]);
      if st.Emit? {
        assert events0 + Emitted(items) == (events + [st.event]) + Emitted(items[k + 1..]) by {
          EmittedUnfold(items, k);
        }
        events := events + [st.event];
        added := true;
      } else if st.Abort? {
        assert events0 + Emitted(items) == events by { EmittedUnfold(items, k); }
        stopped := true;
      } else {
        assert events0 + Emitted(items) == events + Emitted(items[k + 1..]) by { EmittedUnfold(items, k); }
      }
      k := k + 1;
    }
    if !stopped { assert items[k..] == []; }
  }

  /** The loop's view of one element: what `Emitted` of the unhandled rest is. */
  lemma EmittedUnfold(items: seq<JsonItem>, k: nat)
    requires k < |items|
    ensures Classify(items[k]).Skip? ==> Emitted(items[k..]) == Emitted(items[k + 1..])
    ensures Classify(items[k]).Emit? ==> Emitted(items[k..]) == [Classify(items[k]).event] + Emitted(items[k + 1..])
    ensures Classify(items[k]).Abort? ==> Emitted(items[k..]) == []
  {
    assert items[k..][0] == items[k] && items[k..][1..] == items[k + 1..];
  }

  /** The loop over `backup_ferien`. */
  method AppendBackup(events0: seq<Event>) returns (events: seq<Event>)
    ensures events == events0 + BackupEvents()
  {
    events := events0;
    var j := 0;
    while j < |BackupRanges|
      invariant 0 <= j <= |BackupRanges|
      invariant events == events0 + BackupEvents()[..j]
    {
      events := events + [Background(BackupRanges[j].0, BackupRanges[j].1)];
      j := j + 1;
      assert BackupEvents()[..j] == BackupEvents()[..j - 1] + [BackupEvents()[j - 1]];
    }
  }

  // ---------------------------------------------------------------------
  // Properties

  predicate NoAbort(items: seq<JsonItem>) {
    forall j :: 0 <= j < |items| ==> !Classify(items[j]).Abort?
  }

  /** Until the first element that raises, the loop treats a list piece by piece. */
  lemma {:induction false} EmittedAppend(pre: seq<JsonItem>, post: seq<JsonItem>)
    requires NoAbort(pre)
    ensures Emitted(pre + post) == Emitted(pre) + Emitted(post)
  {
    if pre != [] {
      var s := pre + post;
      assert s[0] == pre[0] && s[1..] == pre[1..] + post;
      var tail := pre[1..];
      forall j | 0 <= j < |tail| ensures !Classify(tail[j]).Abort? {
        assert tail[j] == pre[j + 1];
      }
      EmittedAppend(tail, post);
      assert !Classify(pre[0]).Abort?;
    } else {
      assert pre + post == post;
    }
  }

  lemma EmittedSplit(items: seq<JsonItem>, k: nat)
    requires k <= |items| && NoAbort(items[..k])
    ensures Emitted(items) == Emitted(items[..k]) + Emitted(items[k..])
  {
    assert items == items[..k] + items[k..];
    EmittedAppend(items[..k], items[k..]);
  }

  /** An element that raises (an end date strptime rejects, the day after
      9999-12-31, an element that is not an object) ends the loop: the events
      appended before it stay, and nothing after it is looked at. */
  lemma {:induction false} AbortKeepsEarlierEvents(pre: seq<JsonItem>, h: JsonItem, post: seq<JsonItem>)
    requires Classify(h).Abort?
    ensures Emitted(pre + [h] + post) == Emitted(pre)
  {
    if pre == [] {
      assert pre + [h] + post == [h] + post;
      assert ([h] + post)[0] == h;
    } else {
      var s := pre + [h] + post;
      assert s[0] == pre[0] && s[1..] == pre[1..] + [h] + post;
      AbortKeepsEarlierEvents(pre[1..], h, post);
    }
  }

  /** For an exam whose date is a zero-padded `YYYY-MM-DD`, the red colour means
      exactly that the exam day is before today. */
  lemma PastColorMeansBeforeToday(e: Exam, d: Date, today: Date)
    requires ValidDate(d) && ValidDate(today) && e.date == FormatIso(d)
    ensures ExamToEvent(e, FormatIso(today)).backgroundColor == PastColor <==> Before(d, today)
    ensures ExamToEvent(e, FormatIso(today)).backgroundColor == FutureColor <==> !Before(d, today)
  {
    FormatIsoOrder(d, today);
  }

  /** A holiday event ends on the day after the service's inclusive end date:
      one day later by day number, across month ends, year ends and 29 February. */
  lemma HolidayEndIsNextDay(h: JsonItem)
    requires Classify(h).Emit?
    ensures h.Record? && h.end.Some? && ParseIso(h.end.value).Some?
    ensures var d := ParseIso(h.end.value).value;
      var e := ParseIso(Classify(h).event.end);
      && e.Some?
      && e == NextDay(d)
      && Ordinal(e.value) == Ordinal(d) + 1
      && FormatIso(e.value) == Classify(h).event.end
  {
    var d := ParseIso(h.end.value).value;
    var n := NextDay(d).value;
    ParseFormatIso(n);
  }

  /** A skipped element leaves the list as it was. */
  lemma SkippedItemAddsNothing(h: JsonItem, post: seq<JsonItem>)
    requires Classify(h).Skip?
    ensures Emitted([h] + post) == Emitted(post)
  {
    assert ([h] + post)[1..] == post;
  }

  /** If every element is skipped, the service contributes no event. */
  lemma {:induction false} AllSkippedEmitsNothing(items: seq<JsonItem>)
    requires forall j :: 0 <= j < |items| ==> Classify(items[j]).Skip?
    ensures Emitted(items) == []
  {
    if items != [] {
      AllSkippedEmitsNothing(items[1..]);
    }
  }

  /** When the request fails, the status is not 200, the body is not JSON, or
      every element is skipped, the feed ends with exactly the six backup ranges. */
  lemma BackupWhenServiceGivesNothing(api: ApiOutcome)
    requires || api.RequestFailed?
             || (api.Response? && api.status != 200)
             || (api.Response? && api.body.None?)
             || (api.Response? && api.body.Some? &&
                 forall j :: 0 <= j < |api.body.value| ==> Classify(api.body.value[j]).Skip?)
    ensures HolidayEvents(api) == BackupEvents() && |HolidayEvents(api)| == 6
  {
    if api.Response? && api.body.Some? && api.status == 200 {
      AllSkippedEmitsNothing(api.body.value);
    }
  }

  /** A usable answer replaces the backup: when the service's list holds an
      element that gives an event and no element before it raises, the holidays
      are the service's events, and that element's event is among them. */
  lemma UsableAnswerReplacesBackup(items: seq<JsonItem>, k: nat)
    requires k < |items| && NoAbort(items[..k]) && Classify(items[k]).Emit?
    ensures HolidayEvents(Response(200, Some(items))) == Emitted(items)
    ensures Classify(items[k]).event in HolidayEvents(Response(200, Some(items)))
  {
    EmittedSplit(items, k);
    assert items[k..][0] == items[k];
    assert Emitted(items[k..]) == [Classify(items[k]).event] + Emitted(items[k + 1..]) by {
      assert items[k..][1..] == items[k + 1..];
    }
  }

  /** The events route always has something to show: the holidays from the
      service, or else the backup ranges. */
  lemma IntendedEventsNeverEmpty(exams: seq<Exam>, today: string, api: ApiOutcome)
    ensures |IntendedEvents(exams, today, api)| > |exams|
  {
    assert |BackupEvents()| == 6;
  }

  /** A range the calendar can show: both ends are canonical `YYYY-MM-DD` dates
      and the start comes before the exclusive end, as strings and as days. */
  predicate WellFormedRange(s: string, e: string) {
    && ParseIso(s).Some? && ParseIso(e).Some?
    && FormatIso(ParseIso(s).value) == s && FormatIso(ParseIso(e).value) == e
    && Before(ParseIso(s).value, ParseIso(e).value)
    && LexLess(s, e)
  }

  lemma RangeOfDates(s: string, e: string, a: Date, b: Date)
    requires ValidDate(a) && ValidDate(b) && Before(a, b)
    requires FormatIso(a) == s && FormatIso(b) == e
    ensures WellFormedRange(s, e)
  {
    ParseFormatIso(a);
    ParseFormatIso(b);
    FormatIsoOrder(a, b);
  }

  /** `FormatIso(d)` with the month and the day spelled out digit by digit. */
  lemma FormatIsoDigits(d: Date)
    requires ValidDate(d)
    ensures FormatIso(d) == Pad(d.year, 4) + "-" + [DigitChar(d.month / 10), DigitChar(d.month % 10)]
                            + "-" + [DigitChar(d.day / 10), DigitChar(d.day % 10)]
  {
    Pad2Chars(d.month);
    Pad2Chars(d.day);
  }

  lemma YearPrefixDigits()
    ensures Pad(202, 3) == "202"
  {
    assert Pow10(3) == 1000;
    assert Pad(202, 3) == Pad(20, 2) + ['2'];
    assert Pad(20, 2) == Pad(2, 1) + ['0'];
    assert Pad(2, 1) == ['2'];
  }

  /** The two years the backup list spans, written with four digits. */
  lemma BackupYearDigits()
    ensures Pad(2025, 4) == "2025" && Pad(2026, 4) == "2026"
  {
    assert Pow10(4) == 10000;
    YearPrefixDigits();
    assert Pad(2025, 4) == Pad(202, 3) + ['5'];
    assert Pad(2026, 4) == Pad(202, 3) + ['6'];
  }

  /** A backup range given by its two dates is well formed. */
  lemma BackupRangeOfDates(s: string, e: string, a: Date, b: Date)
    requires ValidDate(a) && ValidDate(b) && Before(a, b) && 2025 <= a.year && b.year <= 2026
    requires s == Pad(a.year, 4) + "-" + [DigitChar(a.month / 10), DigitChar(a.month % 10)]
                  + "-" + [DigitChar(a.day / 10), DigitChar(a.day % 10)]
    requires e == Pad(b.year, 4) + "-" + [DigitChar(b.month / 10), DigitChar(b.month % 10)]
                  + "-" + [DigitChar(b.day / 10), DigitChar(b.day % 10)]
    ensures WellFormedRange(s, e)
  {
    FormatIsoDigits(a);
    FormatIsoDigits(b);
    RangeOfDates(s, e, a, b);
  }

  lemma WinterBreakRange()
    ensures WellFormedRange(BackupRanges[0].0, BackupRanges[0].1)
  {
    BackupYearDigits();
    BackupRangeOfDates("2025-03-03", "2025-03-08", Date(2025, 3, 3), Date(2025, 3, 8));
  }

  lemma EasterBreakRange()
    ensures WellFormedRange(BackupRanges[1].0, BackupRanges[1].1)
  {
    BackupYearDigits();
    BackupRangeOfDates("2025-04-14", "2025-04-26", Date(2025, 4, 14), Date(2025, 4, 26));
  }

  lemma WhitsunBreakRange()
    ensures WellFormedRange(BackupRanges[2].0, BackupRanges[2].1)
  {
    BackupYearDigits();
    BackupRangeOfDates("2025-06-10", "2025-06-21", Date(2025, 6, 10), Date(2025, 6, 21));
  }

  lemma SummerBreakRange()
    ensures WellFormedRange(BackupRanges[3].0, BackupRanges[3].1)
  {
    BackupYearDigits();
    BackupRangeOfDates("2025-08-01", "2025-09-16", Date(2025, 8, 1), Date(2025, 9, 16));
  }

  lemma AutumnBreakRange()
    ensures WellFormedRange(BackupRanges[4].0, BackupRanges[4].1)
  {
    BackupYearDigits();
    BackupRangeOfDates("2025-11-03", "2025-11-08", Date(2025, 11, 3), Date(2025, 11, 8));
  }

  lemma ChristmasBreakRange()
    ensures WellFormedRange(BackupRanges[5].0, BackupRanges[5].1)
  {
    BackupYearDigits();
    BackupRangeOfDates("2025-12-22", "2026-01-06", Date(2025, 12, 22), Date(2026, 1, 6));
  }

  /** Every backup range is well formed. */
  lemma BackupRangesWellFormed()
    ensures forall i :: 0 <= i < |BackupRanges| ==> WellFormedRange(BackupRanges[i].0, BackupRanges[i].1)
  {
    forall i | 0 <= i < |BackupRanges|
      ensures WellFormedRange(BackupRanges[i].0, BackupRanges[i].1)
    {
      if i == 0 {
        WinterBreakRange();
      } else if i == 1 {
        EasterBreakRange();
      } else if i == 2 {
        WhitsunBreakRange();
      } else if i == 3 {
        SummerBreakRange();
      } else if i == 4 {
        AutumnBreakRange();
      } else {
        ChristmasBreakRange();
      }
    }
  }
}
