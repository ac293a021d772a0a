/** The evaluation records the results handler receives after population,
    their grouping key, and how an evaluator reference is resolved. */
module EvaluationTypes {
  import opened Common

  /** A populated course or batch reference: its id and, when present, its name. */
  datatype Ref = Ref(id: Id, name: Option<string>)

  /** A populated exam (`title startTime course batch` and its `_id`). */
  datatype Exam = Exam(id: Option<Id>, title: string, startTime: int, course: Option<Ref>, batch: Option<Ref>)

  /** The evaluator field as population leaves it, decided once at input:
      a user document that has a name, any other non-null value (a bare
      reference, or `undefined`) given by its string form, or `null`
      (population found no user). */
  datatype EvaluatorRef =
    | Populated(id: Id, name: string)
    | Raw(ref: Option<Id>)
    | Null

  /** The `{ _id, name }` pair the response lists for each evaluator. */
  datatype Evaluator = Evaluator(id: Id, name: string)

  /** Feedback is copied through untouched. */
  type Feedback = string

  /** One completed evaluation of the caller. */
  datatype Record = Record(exam: Option<Exam>, evaluator: EvaluatorRef, marks: seq<int>, feedback: Feedback)

  const UnknownKey := "unknown"
  const UnknownName := "Unknown"

  /** The group key of a record: its exam's id, or "unknown" when the exam
      or its id is missing (or empty). */
  function ExamKey(r: Record): (k: string)
    ensures k != ""
    ensures k == UnknownKey || (r.exam.Some? && r.exam.value.id == Some(k))
    ensures r.exam.Some? && r.exam.value.id.Some? && r.exam.value.id.value != "" ==> k == r.exam.value.id.value
  {
    OrElse(if r.exam.Some? then r.exam.value.id else None, UnknownKey)
  }

  /** Evaluator resolution as written: `typeof v === "object" && "name" in v`
      throws for `null` (`typeof null` is "object"); `None` stands for that
      exception. */
  function ResolveAsWritten(e: EvaluatorRef): (r: Option<Evaluator>)
    ensures r.None? <==> e.Null?
    ensures e.Populated? ==> r == Some(Evaluator(e.id, e.name))
    ensures e.Raw? ==> r.Some? && r.value.name == UnknownName && r.value.id != ""
  {
    match e
    case Populated(id, name) => Some(Evaluator(id, name))
    case Raw(ref) => Some(Evaluator(OrElse(ref, UnknownKey), UnknownName))
    case Null => None
  }

  /** Evaluator resolution as intended: a named user gives `{id, name}`;
      every other value, `null` included, gives the fallback
      `{id: raw-id-or-"unknown", name: "Unknown"}`. */
  function ResolveEvaluator(e: EvaluatorRef): (r: Evaluator)
    ensures e.Populated? ==> r == Evaluator(e.id, e.name)
    ensures !e.Populated? ==> r.name == UnknownName && r.id != ""
    ensures e.Raw? && e.ref.Some? && e.ref.value != "" ==> r.id == e.ref.value
    ensures e.Null? || (e.Raw? && (e.ref.None? || e.ref.value == "")) ==> r.id == UnknownKey
  {
    match e
    case Populated(id, name) => Evaluator(id, name)
    case Raw(ref) => Evaluator(OrElse(ref, UnknownKey), UnknownName)
    case Null => Evaluator(UnknownKey, UnknownName)
  }

  /** The two resolutions agree on every value the written code does not throw on. */
  lemma ResolveAgreesWhereDefined(e: EvaluatorRef)
    requires !e.Null?
    ensures ResolveAsWritten(e) == Some(ResolveEvaluator(e))
  {
  }

  /** A `null` evaluator makes the written code throw, where the fallback was meant. */
  lemma NullEvaluatorThrows()
    ensures ResolveAsWritten(Null) == None
    ensures ResolveEvaluator(Null) == Evaluator("unknown", "Unknown")
  {
  }
}
