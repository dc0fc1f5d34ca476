/** The routes of `app.py`: the landing page, the events feed, adding and
    deleting exams, and the `strftime` template filter. */
module App {
  import opened Wrappers
  import opened PyStrings
  import opened Decimal
  import opened Dates
  import opened ExamStore
  import opened Web
  import opened Calendar

  /** `index()`: the first exam dated today or later, or none when the database
      fails. `now` is the clock's local date. */
  function Index(table: ExamTable, now: Date, db: DbStatus): (p: Page)
    requires ValidDate(now)
    reads table
    ensures p.IndexPage?
    ensures db.DbDown? ==> p.nextExam.None?
    ensures db.DbUp? ==>
      (p.nextExam.None? <==> forall r :: r in table.rows ==> LexLess(r.date, FormatIso(now)))
    ensures db.DbUp? && p.nextExam.Some? ==>
      var e := p.nextExam.value;
      && e in table.rows
      && LexLe(FormatIso(now), e.date)
      && forall r :: r in table.rows && LexLe(FormatIso(now), r.date) ==> LexLe(e.date, r.date)
  {
    if db.DbDown? then IndexPage(None)
    else
      NextExamSpec(table.rows, FormatIso(now));
      IndexPage(NextExam(table.rows, FormatIso(now)))
  }

  /** A date string in canonical `YYYY-MM-DD` form. */
  predicate IsIsoDate(s: string) {
    ParseIso(s).Some? && FormatIso(ParseIso(s).value) == s
  }

  /** Canonical date strings compare as strings the way their days compare. */
  lemma IsoDateOrder(a: string, b: string)
    requires IsIsoDate(a) && IsIsoDate(b)
    ensures LexLess(a, b) <==> Before(ParseIso(a).value, ParseIso(b).value)
    ensures LexLe(a, b) <==> !Before(ParseIso(b).value, ParseIso(a).value)
  {
    FormatIsoOrder(ParseIso(a).value, ParseIso(b).value);
    FormatIsoOrder(ParseIso(b).value, ParseIso(a).value);
    LexNotLe(a, b);
  }

  /** The day an exam is on, for an exam whose date string parses. */
  function ExamDay(e: Exam): Date {
    match ParseIso(e.date)
    case Some(d) => d
    case None => Date(MinYear, 1, 1)
  }

  /** When every stored date is canonical, comparing the strings in the query is
      comparing the days: the next exam is the earliest exam that is not before
      today, and there is none exactly when every exam is before today. */
  lemma NextExamIsChronological(rows: seq<Exam>, today: Date)
    requires ValidDate(today)
    requires forall r :: r in rows ==> IsIsoDate(r.date)
    ensures NextExam(rows, FormatIso(today)).None? <==> forall r :: r in rows ==> Before(ExamDay(r), today)
    ensures NextExam(rows, FormatIso(today)).Some? ==>
      var e := NextExam(rows, FormatIso(today)).value;
      && e in rows
      && !Before(ExamDay(e), today)
      && forall r :: r in rows && !Before(ExamDay(r), today) ==> !Before(ExamDay(r), ExamDay(e))
  {
    var t := FormatIso(today);
    ParseFormatIso(today);
    assert IsIsoDate(t);
    NextExamSpec(rows, t);
    forall r | r in rows
      ensures LexLess(r.date, t) <==> Before(ExamDay(r), today)
      ensures LexLe(t, r.date) <==> !Before(ExamDay(r), today)
    {
      IsoDateOrder(r.date, t);
      IsoDateOrder(t, r.date);
    }
    if NextExam(rows, t).Some? {
      var e := NextExam(rows, t).value;
      forall r | r in rows && !Before(ExamDay(r), today)
        ensures !Before(ExamDay(r), ExamDay(e))
      {
        IsoDateOrder(e.date, r.date);
      }
    }
  }

  /** How the name `datetime` resolves inside `events()`. Python decides this per
      function: an `import` of the name anywhere in the body makes it local for
      the whole body, so a use before the import raises `UnboundLocalError`. */
  datatype DatetimeName = LocalName | ModuleName

  /** What the body of the outer `try` in `events()` does. */
  datatype Outcome = Returned(events: seq<Event>) | Raised(error: string)

  const UnboundDatetime: string := "cannot access local variable 'datetime' where it is not associated with a value"

  /** The body of the outer `try` in `events()`: query, take today's date, build
      the list. */
  method EventsBody(table: ExamTable, now: Date, api: ApiOutcome, db: DbStatus, name: DatetimeName)
    returns (o: Outcome)
    requires ValidDate(now)
    ensures db.DbDown? ==> o == Raised(db.message)
    ensures db.DbUp? && name.LocalName? ==> o == Raised(UnboundDatetime)
    ensures db.DbUp? && name.ModuleName? ==>
      o == Returned(IntendedEvents(OrderByDate(table.rows), FormatIso(now), api))
  {
    if db.DbDown? {
      return Raised(db.message);
    }
    var exams := OrderByDate(table.rows);
    if name.LocalName? {
      return Raised(UnboundDatetime);
    }
    var today := FormatIso(now);
    var events, _ := BuildEvents(exams, today, api);
    return Returned(events);
  }

  /** `events()` as written: `from datetime import datetime, timedelta` inside the
      body makes `datetime.now()` raise before any event is built, and the outer
      handler turns that into an empty list, whatever the table and the service hold. */
  method Events(table: ExamTable, now: Date, api: ApiOutcome, db: DbStatus) returns (r: seq<Event>)
    requires ValidDate(now)
    ensures r == []
  {
    var o := EventsBody(table, now, api, db, LocalName);
    match o {
      case Returned(events) => r := events;
      case Raised(_) => r := [];
    }
  }

  /** `events()` with `datetime` taken from the module-level import: every exam,
      ordered by date and coloured by whether it has passed, then the holidays.
      The list is never empty while the database answers. */
  method EventsIntended(table: ExamTable, now: Date, api: ApiOutcome, db: DbStatus) returns (r: seq<Event>)
    requires ValidDate(now)
    ensures db.DbDown? ==> r == []
    ensures db.DbUp? ==> r == IntendedEvents(OrderByDate(table.rows), FormatIso(now), api)
    ensures db.DbUp? ==> |r| > |table.rows|
  {
    var o := EventsBody(table, now, api, db, ModuleName);
    r := if o.Returned? then o.events else [];
    if db.DbUp? {
      IntendedEventsNeverEmpty(OrderByDate(table.rows), FormatIso(now), api);
    }
  }

  /** The two side by side: while the database answers, the route as written
      returns nothing where the evidently intended one returns every exam and at
      least the backup holidays. */
  method ShadowedDatetimeLosesEvents(table: ExamTable, now: Date, api: ApiOutcome)
    returns (asWritten: seq<Event>, intended: seq<Event>)
    requires ValidDate(now)
    ensures asWritten == []
    ensures |intended| > |table.rows| && asWritten != intended
  {
    asWritten := Events(table, now, api, DbUp);
    intended := EventsIntended(table, now, api, DbUp);
  }

  /** `add_exam()`. A POST with a non-blank subject and date inserts one row with
      the schema's default grade and times and redirects to the landing page; a
      blank field or a database error re-renders the form with a message. */
  method AddExam(table: ExamTable, m: HttpMethod, subject: Option<string>, date: Option<string>, db: DbStatus)
    returns (p: Page)
    requires table.Valid()
    modifies table
    ensures table.Valid()
    ensures m.Get? ==> p == AddPage(None)
    ensures m.Post? && (FormField(subject) == [] || FormField(date) == []) ==>
      p == AddPage(Some(MissingFieldsError))
    ensures m.Post? && FormField(subject) != [] && FormField(date) != [] && db.DbDown? ==>
      p == AddPage(Some("Fehler: " + db.message))
    ensures m.Post? && FormField(subject) != [] && FormField(date) != [] && db.DbUp? ==>
      && p == Redirect("index")
      && table.nextId == old(table.nextId) + 1
      && table.rows == old(table.rows) +
           [Exam(old(table.nextId), FormField(subject), DefaultGrade, FormField(date), DefaultStartTime, DefaultEndTime)]
    ensures !(m.Post? && FormField(subject) != [] && FormField(date) != [] && db.DbUp?) ==>
      table.rows == old(table.rows) && table.nextId == old(table.nextId)
  {
    if m.Get? {
      return AddPage(None);
    }
    var s := FormField(subject);
    var d := FormField(date);
    if s == [] || d == [] {
      return AddPage(Some(MissingFieldsError));
    }
    if db.DbDown? {
      return AddPage(Some("Fehler: " + db.message));
    }
    var _ := table.Insert(s, DefaultGrade, d, DefaultStartTime, DefaultEndTime);
    return Redirect("index");
  }

  /** `delete_exam()`. A POST with a non-blank `exam_id` deletes the rows with that
      id and redirects back; anything else lists every exam by date. A database
      error shows an empty list with the message. */
  method DeleteExam(table: ExamTable, m: HttpMethod, examId: Option<string>, db: DbStatus)
    returns (p: Page)
    requires table.Valid()
    modifies table
    ensures table.Valid() && table.nextId == old(table.nextId)
    ensures db.DbDown? ==> p == DeletePage([], Some(db.message)) && table.rows == old(table.rows)
    ensures db.DbUp? && m.Post? && FormField(examId) != [] ==>
      p == Redirect("delete_exam") && table.rows == DeleteWhereText(old(table.rows), FormField(examId))
    ensures db.DbUp? && !(m.Post? && FormField(examId) != []) ==>
      p == DeletePage(OrderByDate(table.rows), None) && table.rows == old(table.rows)
  {
    if db.DbDown? {
      return DeletePage([], Some(db.message));
    }
    if m.Post? {
      var t := FormField(examId);
      if t != [] {
        match IdOfText(t) {
          case Some(n) => table.DeleteWhereId(n);
          case None =>
        }
        return Redirect("delete_exam");
      }
    }
    return DeletePage(OrderByDate(table.rows), None);
  }

  /** An id posted exactly as `str(id)` writes it removes exactly the rows with
      that id. */
  lemma DeleteShownId(rows: seq<Exam>, n: nat)
    ensures FormField(Some(Show(n))) == Show(n)
    ensures DeleteWhereText(rows, FormField(Some(Show(n)))) == WithoutId(rows, n)
  {
    var t := Show(n);
    assert !IsSpace(t[0]) && !IsSpace(t[|t| - 1]);
    assert StripStart(t, 0) == 0;
    assert StripEnd(t, 0, |t|) == |t|;
    assert t[0..|t|] == t;
    IdOfShownId(n);
  }

  /** The `strftime` template filter with its default format `%d.%m.%Y`: a
      `YYYY-MM-DD` date is shown as `DD.MM.YYYY`, anything else is passed through. */
  function DateFilter(s: string): (r: string)
    ensures ParseIso(s).None? ==> r == s
    ensures ParseIso(s).Some? ==> |r| == 10 && ParseDisplay(r) == ParseIso(s)
  {
    match ParseIso(s)
    case None => s
    case Some(d) => ParseFormatDisplay(d); FormatDisplay(d)
  }

  /** A date stored in canonical `YYYY-MM-DD` form is shown as that day. */
  lemma DateFilterOfIso(d: Date)
    requires ValidDate(d)
    ensures DateFilter(FormatIso(d)) == FormatDisplay(d)
  {
    ParseFormatIso(d);
  }
}
