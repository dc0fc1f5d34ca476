/** What the routes receive and return once Flask is taken away: the request
    method, form fields, whether the database answered, and the page rendered. */
module Web {
  import opened Wrappers
  import opened PyStrings
  import opened ExamStore

  datatype HttpMethod = Get | Post

  /** The database either answers, or raises with this message on connect or execute. */
  datatype DbStatus = DbUp | DbDown(message: string)

  /** `render_template(...)` with its arguments, or `redirect(url_for(endpoint))`. */
  datatype Page =
    | IndexPage(nextExam: Option<Exam>)
    | AddPage(error: Option<string>)
    | DeletePage(exams: seq<Exam>, error: Option<string>)
    | Redirect(endpoint: string)

  const MissingFieldsError: string := "Bitte alle Felder ausfüllen!"

  /** `(request.form.get(name) or "").strip()`, which for form values is also
      `request.form.get(name, '').strip()`. */
  function FormField(v: Option<string>): (r: string)
    ensures r == [] <==> v.None? || AllSpace(v.value)
  {
    match v
    case None => ""
    case Some(s) => StripBlank(s); Strip(s)
  }
}
