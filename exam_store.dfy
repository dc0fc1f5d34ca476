/** The `exams` table both apps keep in SQLite, as an in-memory table: rows in
    insertion (rowid) order, an AUTOINCREMENT counter, and the three queries the
    routes run against it (`ORDER BY date`, `WHERE date >= ? ORDER BY date LIMIT 1`,
    `DELETE ... WHERE id = ?`). */
module ExamStore {
  import opened Wrappers
  import opened PyStrings
  import opened Decimal

  /** One row of `exams`; `created_at` is not modelled. */
  datatype Exam = Exam(id: int, subject: string, grade: string, date: string, startTime: string, endTime: string)

  /** Column defaults of the schema. */
  const DefaultGrade: string := "4A"
  const DefaultStartTime: string := "08:00"
  const DefaultEndTime: string := "16:00"

  predicate IdsIncreasing(rows: seq<Exam>) {
    forall i, j :: 0 <= i < j < |rows| ==> rows[i].id < rows[j].id
  }

  predicate SortedByDate(rows: seq<Exam>) {
    forall i, j :: 0 <= i < j < |rows| ==> LexLe(rows[i].date, rows[j].date)
  }

  // ---------------------------------------------------------------------
  // ORDER BY date (text comparison)

  function InsertByDate(e: Exam, rows: seq<Exam>): (r: seq<Exam>)
    ensures multiset(r) == multiset(rows) + multiset{e}
    ensures |r| == |rows| + 1
  {
    if rows == [] then [e]
    else if LexLe(e.date, rows[0].date) then [e] + rows
    else
      assert rows == [rows[0]] + rows[1..];
      [rows[0]] + InsertByDate(e, rows[1..])
  }

  /** The rows as `ORDER BY date` returns them: every row once, in non-decreasing
      date order. SQL leaves the order of equal dates open; this ordering keeps
      them in rowid order. */
  function OrderByDate(rows: seq<Exam>): (r: seq<Exam>)
    ensures SortedByDate(r)
    ensures multiset(r) == multiset(rows)
    ensures |r| == |rows|
  {
    if rows == [] then []
    else
      var rest := OrderByDate(rows[1..]);
      OrderByDateStep(rows, rest);
      InsertByDate(rows[0], rest)
  }

  /** Inserting the first row into the sorted rest sorts the whole list. */
  lemma OrderByDateStep(rows: seq<Exam>, rest: seq<Exam>)
    requires rows != [] && SortedByDate(rest) && multiset(rest) == multiset(rows[1..])
    ensures SortedByDate(InsertByDate(rows[0], rest))
    ensures multiset(InsertByDate(rows[0], rest)) == multiset(rows)
  {
    InsertByDateSpec(rows[0], rest);
    assert rows == [rows[0]] + rows[1..];
  }

  lemma {:induction false} InsertByDateSpec(e: Exam, rows: seq<Exam>)
    requires SortedByDate(rows)
    ensures SortedByDate(InsertByDate(e, rows))
    ensures multiset(InsertByDate(e, rows)) == multiset(rows) + multiset{e}
  {
    if rows == [] {
    } else if LexLe(e.date, rows[0].date) {
      forall j | 0 <= j < |rows| ensures LexLe(e.date, rows[j].date) {
        if j > 0 { LexLeTransitive(e.date, rows[0].date, rows[j].date); }
      }
    } else {
      var tail := rows[1..];
      InsertByDateSpec(e, tail);
      LexNotLe(e.date, rows[0].date);
      forall j | 0 <= j < |tail| ensures LexLe(rows[0].date, tail[j].date) {
        assert tail[j] == rows[j + 1];
      }
      LowerBoundOfPermutation(InsertByDate(e, tail), tail, e, rows[0].date);
      assert rows == [rows[0]] + tail;
    }
  }

  /** A bound every row of `tail` and `e` meet is met by any rearrangement of them. */
  lemma LowerBoundOfPermutation(r: seq<Exam>, tail: seq<Exam>, e: Exam, lo: string)
    requires multiset(r) == multiset(tail) + multiset{e}
    requires LexLe(lo, e.date)
    requires forall j :: 0 <= j < |tail| ==> LexLe(lo, tail[j].date)
    ensures forall k :: 0 <= k < |r| ==> LexLe(lo, r[k].date)
  {
    forall k | 0 <= k < |r| ensures LexLe(lo, r[k].date) {
      assert r[k] in multiset(r);
      if r[k] != e {
        assert r[k] in multiset(tail);
        var j :| 0 <= j < |tail| && tail[j] == r[k];
      }
    }
  }

  // ---------------------------------------------------------------------
  // SELECT * FROM exams WHERE date >= ? ORDER BY date LIMIT 1

  /** The first row, in the order given, dated today or later; none when no row is. */
  function FirstOnOrAfter(rows: seq<Exam>, today: string): (r: Option<Exam>)
    ensures r.Some? ==> r.value in rows && LexLe(today, r.value.date)
    ensures r.None? <==> forall x :: x in rows ==> !LexLe(today, x.date)
  {
    if rows == [] then None
    else if LexLe(today, rows[0].date) then Some(rows[0])
    else
      assert forall x :: x in rows ==> x == rows[0] || x in rows[1..];
      FirstOnOrAfter(rows[1..], today)
  }

  /** The exam the landing page announces: one dated today or later, or none
      when every exam is dated before today. */
  function NextExam(rows: seq<Exam>, today: string): (r: Option<Exam>)
    ensures r.Some? ==> r.value in rows && LexLe(today, r.value.date)
    ensures r.None? <==> forall x :: x in rows ==> LexLess(x.date, today)
  {
    var s := OrderByDate(rows);
    assert forall x :: x in rows <==> x in s by {
      forall x ensures x in rows <==> x in s {
        assert x in rows <==> x in multiset(rows);
        assert x in s <==> x in multiset(s);
      }
    }
    forall x | x in rows ensures !LexLe(today, x.date) <==> LexLess(x.date, today) {
      LexNotLe(today, x.date);
    }
    FirstOnOrAfter(s, today)
  }

  lemma {:induction false} FirstOnOrAfterSpec(rows: seq<Exam>, today: string)
    requires SortedByDate(rows)
    ensures FirstOnOrAfter(rows, today).None? <==> forall r :: r in rows ==> !LexLe(today, r.date)
    ensures FirstOnOrAfter(rows, today).Some? ==>
      var e := FirstOnOrAfter(rows, today).value;
      e in rows && LexLe(today, e.date) &&
      forall r :: r in rows && LexLe(today, r.date) ==> LexLe(e.date, r.date)
  {
    if rows == [] {
    } else if LexLe(today, rows[0].date) {
      forall r | r in rows ensures LexLe(rows[0].date, r.date) {
        var j :| 0 <= j < |rows| && rows[j] == r;
        if j > 0 { assert LexLe(rows[0].date, rows[j].date); }
      }
    } else {
      FirstOnOrAfterSpec(rows[1..], today);
      assert forall r :: r in rows ==> r == rows[0] || r in rows[1..];
    }
  }

  /** The next exam is an exam dated today or later, and no such exam has an
      earlier date; there is none exactly when every exam is dated before today. */
  lemma NextExamSpec(rows: seq<Exam>, today: string)
    ensures NextExam(rows, today).None? <==> forall r :: r in rows ==> LexLess(r.date, today)
    ensures NextExam(rows, today).Some? ==>
      var e := NextExam(rows, today).value;
      e in rows && LexLe(today, e.date) &&
      forall r :: r in rows && LexLe(today, r.date) ==> LexLe(e.date, r.date)
  {
    var s := OrderByDate(rows);
    FirstOnOrAfterSpec(s, today);
    forall r | r in rows ensures r in s {
      assert r in multiset(rows);
    }
  }

  // ---------------------------------------------------------------------
  // DELETE FROM exams WHERE id = ?

  /** The rows left after deleting every row with the given id, order kept. */
  function WithoutId(rows: seq<Exam>, id: int): (r: seq<Exam>)
    ensures forall x :: x in r <==> x in rows && x.id != id
    ensures |r| <= |rows|
  {
    if rows == [] then []
    else (if rows[0].id == id then [] else [rows[0]]) + WithoutId(rows[1..], id)
  }

  /** Deleting an id that no row has changes nothing. */
  lemma {:induction false} WithoutAbsentId(rows: seq<Exam>, id: int)
    requires forall x :: x in rows ==> x.id != id
    ensures WithoutId(rows, id) == rows
  {
    if rows != [] {
      WithoutAbsentId(rows[1..], id);
      assert rows == [rows[0]] + rows[1..];
    }
  }

  /** With unique ids, deleting an id that a row has removes exactly that one row. */
  lemma {:induction false} WithoutPresentId(rows: seq<Exam>, id: int)
    requires IdsIncreasing(rows)
    requires exists x :: x in rows && x.id == id
    ensures |WithoutId(rows, id)| == |rows| - 1
  {
    if rows[0].id == id {
      forall x | x in rows[1..] ensures x.id != id {
        var j :| 0 <= j < |rows[1..]| && rows[1..][j] == x;
        assert rows[j + 1] == x;
      }
      WithoutAbsentId(rows[1..], id);
    } else {
      var x :| x in rows && x.id == id;
      assert x in rows[1..] by { assert rows == [rows[0]] + rows[1..]; }
      WithoutPresentId(rows[1..], id);
    }
  }

  lemma {:induction false} WithoutIdKeepsIdsIncreasing(rows: seq<Exam>, id: int)
    requires IdsIncreasing(rows)
    ensures IdsIncreasing(WithoutId(rows, id))
  {
    if rows != [] {
      WithoutIdKeepsIdsIncreasing(rows[1..], id);
      var r := WithoutId(rows[1..], id);
      forall k | 0 <= k < |r| ensures rows[0].id < r[k].id {
        assert r[k] in rows[1..];
        var j :| 0 <= j < |rows[1..]| && rows[1..][j] == r[k];
        assert rows[j + 1] == r[k];
      }
    }
  }

  /** Deleting the id of a row just appended under a fresh id removes exactly
      that row again. */
  lemma {:induction false} WithoutFreshId(rows: seq<Exam>, e: Exam)
    requires forall x :: x in rows ==> x.id != e.id
    ensures WithoutId(rows + [e], e.id) == rows
  {
    if rows == [] {
      assert WithoutId([e], e.id) == [] + WithoutId([], e.id);
    } else {
      assert (rows + [e])[1..] == rows[1..] + [e];
      WithoutFreshId(rows[1..], e);
      assert rows == [rows[0]] + rows[1..];
    }
  }

  /** How SQLite reads the text bound to `id = ?` against the INTEGER id column:
      an optional sign followed by decimal digits becomes that integer; any other
      text equals no id. */
  function IdOfText(t: string): (r: Option<int>)
    ensures r.Some? ==> t != []
    ensures r.Some? ==>
      var digits := if t[0] == '+' || t[0] == '-' then t[1..] else t;
      var n := if r.value < 0 then -r.value else r.value;
      && digits != []
      && n < Pow10(|digits|)
      && Pad(n, |digits|) == digits
      && (r.value < 0 ==> t[0] == '-')
    ensures r.Some? && t[0] == '-' ==> r.value <= 0
    ensures r.Some? && t[0] != '-' ==> r.value >= 0
    ensures t != [] && AllDigits(t) ==> r.Some?
    ensures |t| >= 2 && (t[0] == '+' || t[0] == '-') && AllDigits(t[1..]) ==> r.Some?
  {
    if t == [] then None
    else if t[0] == '+' || t[0] == '-' then
      if |t| >= 2 && AllDigits(t[1..]) then
        ValuePad(t[1..]);
        var v: int := DigitsValue(t[1..]);
        Some(if t[0] == '-' then -v else v)
      else None
    else if AllDigits(t) then
      ValuePad(t);
      Some(DigitsValue(t))
    else None
  }

  /** The text `str(n)` of an id selects that id. */
  lemma IdOfShownId(n: nat)
    ensures IdOfText(Show(n)) == Some(n)
  {
    ShowValue(n);
  }

  /** The table after `DELETE FROM exams WHERE id = t`: the rows with the id the
      text denotes are gone and no other row is; text that is not an id removes
      nothing. */
  function DeleteWhereText(rows: seq<Exam>, t: string): (r: seq<Exam>)
    ensures IdOfText(t).None? ==> r == rows
    ensures IdOfText(t).Some? ==> forall x :: x in r <==> x in rows && x.id != IdOfText(t).value
  {
    match IdOfText(t)
    case Some(n) => WithoutId(rows, n)
    case None => rows
  }

  // ---------------------------------------------------------------------
  // The table itself

  class ExamTable {
    /** Rows in rowid order. */
    var rows: seq<Exam>
    /** The id AUTOINCREMENT hands out next: one more than the largest id ever used. */
    var nextId: int

    ghost predicate Valid()
      reads this
    {
      && nextId >= 1
      && IdsIncreasing(rows)
      && forall x :: x in rows ==> 1 <= x.id < nextId
    }

    /** `CREATE TABLE IF NOT EXISTS exams (...)` on an empty database. */
    constructor ()
      ensures Valid() && rows == [] && nextId == 1
    {
      rows := [];
      nextId := 1;
    }

    /** `INSERT INTO exams (...) VALUES (...)`: one new row under a fresh id,
        appended after every existing row. */
    method Insert(subject: string, grade: string, date: string, startTime: string, endTime: string)
      returns (id: int)
      requires Valid()
      modifies this
      ensures Valid()
      ensures id == old(nextId) && nextId == old(nextId) + 1
      ensures forall x :: x in old(rows) ==> x.id != id
      ensures rows == old(rows) + [Exam(id, subject, grade, date, startTime, endTime)]
    {
      id := nextId;
      rows := rows + [Exam(id, subject, grade, date, startTime, endTime)];
      nextId := nextId + 1;
    }

    /** `DELETE FROM exams WHERE id = ?` with the integer `id`. */
    method DeleteWhereId(id: int)
      requires Valid()
      modifies this
      ensures Valid()
      ensures nextId == old(nextId)
      ensures rows == WithoutId(old(rows), id)
    {
      WithoutIdKeepsIdsIncreasing(rows, id);
      rows := WithoutId(rows, id);
    }
  }
}
