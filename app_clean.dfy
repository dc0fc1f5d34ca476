/** The routes of `app_clean.py` that differ from `app.py`: an events feed with
    exams only, always blue and titled with the grade, and an add route that
    writes the grade and times itself. Its `index()` and `delete_exam()` do what
    `App.Index` and `App.DeleteExam` do. */
module AppClean {
  import opened Wrappers
  import opened ExamStore
  import opened Web
  import opened Calendar

  /** The values `add_exam()` stores for every new exam. */
  const Grade: string := "4A"
  const StartTime: string := "08:00"
  const EndTime: string := "16:00"

  function CleanEvent(e: Exam): (ev: Event)
    ensures ev.ExamEvent? && ev.id == e.id
    ensures ev.title == e.subject + " (" + e.grade + ")"
    ensures ev.start == e.date + "T" + e.startTime && ev.end == e.date + "T" + e.endTime
    ensures ev.backgroundColor == FutureColor && ev.borderColor == FutureColor
  {
    ExamEvent(e.id, e.subject + " (" + e.grade + ")", e.date + "T" + e.startTime, e.date + "T" + e.endTime,
              FutureColor, FutureColor)
  }

  /** The loop of `events()`: one event per exam, in the order given. */
  method BuildCleanEvents(exams: seq<Exam>) returns (events: seq<Event>)
    ensures |events| == |exams|
    ensures forall i :: 0 <= i < |exams| ==>
      && events[i].ExamEvent?
      && events[i].id == exams[i].id
      && events[i].title == exams[i].subject + " (" + exams[i].grade + ")"
      && events[i].start == exams[i].date + "T" + exams[i].startTime
      && events[i].end == exams[i].date + "T" + exams[i].endTime
      && events[i].backgroundColor == FutureColor
      && events[i].borderColor == FutureColor
  {
    events := [];
    var i := 0;
    while i < |exams|
      invariant 0 <= i <= |exams|
      invariant |events| == i
      invariant forall k :: 0 <= k < i ==> events[k] == CleanEvent(exams[k])
    {
      events := events + [CleanEvent(exams[i])];
      i := i + 1;
    }
  }

  /** `events()`: every exam of the table once, in date order, as a blue event;
      any database error gives the empty list. */
  method Events(table: ExamTable, db: DbStatus) returns (r: seq<Event>)
    ensures db.DbDown? ==> r == []
    ensures db.DbUp? ==>
      && |r| == |table.rows|
      && forall i :: 0 <= i < |r| ==> r[i] == CleanEvent(OrderByDate(table.rows)[i])
  {
    if db.DbDown? {
      return [];
    }
    var exams := OrderByDate(table.rows);
    r := BuildCleanEvents(exams);
  }

  /** `add_exam()`. A POST with a non-blank subject and date inserts one row with
      grade `4A` from 08:00 to 16:00 and redirects to the landing page; a blank
      field or a database error re-renders the form with a message. */
  method AddExam(table: ExamTable, m: HttpMethod, subject: Option<string>, date: Option<string>, db: DbStatus)
    returns (p: Page)
    requires table.Valid()
    modifies table
    ensures table.Valid()
    ensures m.Get? ==> p == AddPage(None)
    ensures m.Post? && (FormField(subject) == [] || FormField(date) == []) ==>
      p == AddPage(Some(MissingFieldsError))
    ensures m.Post? && FormField(subject) != [] && FormField(date) != [] && db.DbDown? ==>
      p == AddPage(Some("Fehler: " + db.message))
    ensures m.Post? && FormField(subject) != [] && FormField(date) != [] && db.DbUp? ==>
      && p == Redirect("index")
      && table.nextId == old(table.nextId) + 1
      && table.rows == old(table.rows) +
           [Exam(old(table.nextId), FormField(subject), Grade, FormField(date), StartTime, EndTime)]
    ensures !(m.Post? && FormField(subject) != [] && FormField(date) != [] && db.DbUp?) ==>
      table.rows == old(table.rows) && table.nextId == old(table.nextId)
  {
    if m.Get? {
      return AddPage(None);
    }
    var s := FormField(subject);
    var d := FormField(date);
    if s == [] || d == [] {
      return AddPage(Some(MissingFieldsError));
    }
    if db.DbDown? {
      return AddPage(Some("Fehler: " + db.message));
    }
    var _ := table.Insert(s, Grade, d, StartTime, EndTime);
    return Redirect("index");
  }
}
