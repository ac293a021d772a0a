/** The results handler: the caller guard, the empty-result answer, and the
    shaping of the grouped records into one result per exam. */
module EvaluationResults {
  import opened Common
  import opened EvaluationTypes
  import opened ExamGrouping
  import opened MarkStatistics

  /** The `exam` object of one result. */
  datatype ExamView = ExamView(id: Option<Id>, title: string, startTime: int, courseName: string, batchId: Option<Id>, batchName: string)

  /** One exam's entry of `results`. */
  datatype ResultView = ResultView(exam: ExamView, averageMarks: Option<real>, marks: seq<seq<int>>, feedback: seq<Feedback>, evaluators: seq<Evaluator>)

  /** The JSON bodies the handler writes. */
  datatype Body = ErrorBody(error: string) | MessageBody(message: string) | ResultsBody(results: seq<ResultView>)

  datatype Response = Response(status: nat, body: Body)

  /** Either a response is written, or an exception raised inside the
      handler's `try` is passed on with `next(err)`. */
  datatype Outcome = Sent(response: Response) | Forwarded

  const UnauthorizedResponse := Response(401, ErrorBody("Unauthorized"))
  const NoEvaluationsResponse := Response(200, MessageBody("No evaluations found"))
  const UnknownCourse := "Unknown Course"
  const UnknownBatch := "Unknown Batch"

  /** `req.user?._id?.toString()`, kept only when truthy. */
  function StudentId(user: Option<User>): (id: Option<Id>)
    ensures id.Some? <==> user.Some? && user.value.id.Some? && user.value.id.value != ""
    ensures id.Some? ==> user.value.id == id
  {
    if user.Some? && user.value.id.Some? && user.value.id.value != "" then user.value.id else None
  }

  /** The exam object of a result: id, title and start time copied, course
      and batch names falling back when absent. */
  function ShapeExam(e: Exam): (v: ExamView)
    ensures v.id == e.id && v.title == e.title && v.startTime == e.startTime
    ensures e.course.None? ==> v.courseName == UnknownCourse
    ensures e.course.Some? && (e.course.value.name.None? || e.course.value.name.value == "") ==> v.courseName == UnknownCourse
    ensures e.course.Some? && e.course.value.name.Some? && e.course.value.name.value != "" ==> v.courseName == e.course.value.name.value
    ensures e.batch.None? ==> v.batchId == None && v.batchName == UnknownBatch
    ensures e.batch.Some? && e.batch.value.id == "" ==> v.batchId == None
    ensures e.batch.Some? && e.batch.value.id != "" ==> v.batchId == Some(e.batch.value.id)
    ensures e.batch.Some? && (e.batch.value.name.None? || e.batch.value.name.value == "") ==> v.batchName == UnknownBatch
    ensures e.batch.Some? && e.batch.value.name.Some? && e.batch.value.name.value != "" ==> v.batchName == e.batch.value.name.value
  {
    ExamView(e.id, e.title, e.startTime,
             OrElse(if e.course.Some? then e.course.value.name else None, UnknownCourse),
             if e.batch.Some? && e.batch.value.id != "" then Some(e.batch.value.id) else None,
             OrElse(if e.batch.Some? then e.batch.value.name else None, UnknownBatch))
  }

  /** One group's result; `None` when the group has no exam, where
      `group.exam._id` throws. */
  function ShapeGroup(g: Group): (v: Option<ResultView>)
    ensures v.None? <==> g.exam.None?
    ensures v.Some? ==> v.value.exam == ShapeExam(g.exam.value)
    ensures v.Some? ==> v.value.marks == g.marksList && v.value.feedback == g.feedbackList && v.value.evaluators == g.evaluators
    ensures v.Some? ==> v.value.averageMarks == Average(Totals(g.marksList))
  {
    if g.exam.None? then None
    else Some(ResultView(ShapeExam(g.exam.value), Average(Totals(g.marksList)), g.marksList, g.feedbackList, g.evaluators))
  }

  /** `Object.values(resultsMap).map(...)`: all groups shaped, or none when
      any one of them throws. */
  function ShapeAll(gs: seq<Group>): (r: Option<seq<ResultView>>)
    ensures r.Some? <==> forall i :: 0 <= i < |gs| ==> gs[i].exam.Some?
    ensures r.Some? ==> |r.value| == |gs| && forall i :: 0 <= i < |gs| ==> ShapeGroup(gs[i]) == Some(r.value[i])
  {
    if gs == [] then Some([])
    else
      match ShapeGroup(gs[0])
      case None => None
      case Some(v) =>
        match ShapeAll(gs[1..])
        case None => None
        case Some(vs) => Some([v] + vs)
  }

  /** The groups in the grouping map's insertion order (`Object.values`):
      one per distinct key, none of them empty. */
  function GroupsInOrder(rs: seq<Record>): (gs: seq<Group>)
    ensures |gs| == |DistinctKeys(rs)|
    ensures forall i :: 0 <= i < |gs| ==> gs[i].marksList != []
  {
    var order := DistinctKeys(rs);
    DistinctKeysNonEmpty(rs);
    seq(|order|, i requires 0 <= i < |order| => GroupOf(rs, order[i]))
  }

  /** What the handler answers for the fetched records: the "No evaluations
      found" message exactly when there are none (it carries no results),
      and status 200 whenever a response is written. */
  function Respond(rs: seq<Record>): (o: Outcome)
    ensures o == Sent(NoEvaluationsResponse) <==> rs == []
    ensures o.Sent? ==> o.response.status == 200
  {
    if rs == [] then Sent(NoEvaluationsResponse)
    else
      match ShapeAll(GroupsInOrder(rs))
      case None => Forwarded
      case Some(views) => Sent(Response(200, ResultsBody(views)))
  }

  /** `getEvaluationResults`. `find` stands for the query of the caller's
      completed evaluations with exam, course, batch and evaluator populated;
      `fetches` lists the student ids it was asked for. */
  method GetEvaluationResults(user: Option<User>, find: Id -> seq<Record>) returns (fetches: seq<Id>, outcome: Outcome)
    ensures StudentId(user).None? ==> fetches == [] && outcome == Sent(UnauthorizedResponse)
    ensures StudentId(user).Some? ==> fetches == [StudentId(user).value] && outcome == Respond(find(StudentId(user).value))
  {
    var studentId := StudentId(user);
    if studentId.None? {
      return [], Sent(UnauthorizedResponse);
    }
    var evaluations := find(studentId.value);
    fetches := [studentId.value];
    if |evaluations| == 0 {
      return fetches, Sent(NoEvaluationsResponse);
    }
    var order, resultsMap := GroupByExam(evaluations);
    assert forall i :: 0 <= i < |order| ==> order[i] in resultsMap;
    var groups := seq(|order|, i requires 0 <= i < |order| && order[i] in resultsMap => resultsMap[order[i]]);
    assert groups == GroupsInOrder(evaluations);
    var results := ShapeAll(groups);
    if results.None? {
      outcome := Forwarded;
    } else {
      outcome := Sent(Response(200, ResultsBody(results.value)));
    }
  }

  /** The group key a result stands for. */
  function ViewKey(v: ResultView): string {
    OrElse(v.exam.id, UnknownKey)
  }

  /** The first record with a key heads that key's matching records. */
  lemma {:induction false} MatchingHead(rs: seq<Record>, k: string)
    requires Occurs(rs, k)
    ensures Matching(rs, k) != [] && Matching(rs, k)[0] == rs[FirstIndex(rs, k)]
  {
    var init, last := rs[..|rs| - 1], rs[|rs| - 1];
    MatchingEmpty(rs, k);
    FirstIndexOccurs(rs, k);
    FirstIndexOccurs(init, k);
    FirstIndexSnoc(init, last, k);
    assert rs == init + [last];
    if Occurs(init, k) {
      MatchingHead(init, k);
    } else {
      MatchingEmpty(init, k);
    }
  }

  /** Every key's group, in first-occurrence order, has as its exam the exam
      of its first record. */
  lemma GroupsInOrderExams(rs: seq<Record>)
    ensures |GroupsInOrder(rs)| == |DistinctKeys(rs)|
    ensures forall i :: 0 <= i < |DistinctKeys(rs)| ==>
      && GroupsInOrder(rs)[i] == GroupOf(rs, DistinctKeys(rs)[i])
      && FirstIndex(rs, DistinctKeys(rs)[i]) < |rs|
      && GroupsInOrder(rs)[i].exam == rs[FirstIndex(rs, DistinctKeys(rs)[i])].exam
  {
    var order := DistinctKeys(rs);
    DistinctKeysOccur(rs);
    forall i | 0 <= i < |order|
      ensures FirstIndex(rs, order[i]) < |rs|
      ensures GroupsInOrder(rs)[i].exam == rs[FirstIndex(rs, order[i])].exam
    {
      MatchingHead(rs, order[i]);
      FirstIndexOccurs(rs, order[i]);
    }
  }

  /** What a results answer is made of: one shaped group per key, in order. */
  lemma ResultsFromGroups(rs: seq<Record>, views: seq<ResultView>)
    requires Respond(rs) == Sent(Response(200, ResultsBody(views)))
    ensures rs != [] && |views| == |GroupsInOrder(rs)|
    ensures forall i :: 0 <= i < |views| ==>
      var g := GroupsInOrder(rs)[i];
      && g.exam.Some?
      && views[i].exam == ShapeExam(g.exam.value)
      && views[i].marks == g.marksList && views[i].feedback == g.feedbackList
      && views[i].evaluators == g.evaluators
      && views[i].averageMarks == Average(Totals(g.marksList))
  {
    var gs := GroupsInOrder(rs);
    assert ShapeAll(gs) == Some(views);
    forall i | 0 <= i < |views| ensures ShapeGroup(gs[i]) == Some(views[i]) {
    }
  }

  lemma RespondForwards(rs: seq<Record>)
    requires rs != []
    ensures Respond(rs) == Forwarded <==> ShapeAll(GroupsInOrder(rs)).None?
  {
  }

  /** The handler passes the error on exactly when the records are not empty
      and the first record keyed "unknown" has no exam. */
  lemma ForwardedExactlyOnMissingExam(rs: seq<Record>)
    ensures Respond(rs) == Forwarded <==>
      rs != [] && FirstIndex(rs, UnknownKey) < |rs| && rs[FirstIndex(rs, UnknownKey)].exam.None?
  {
    if rs != [] {
      var order, gs := DistinctKeys(rs), GroupsInOrder(rs);
      var missing := exists i :: 0 <= i < |gs| && gs[i].exam.None?;
      RespondForwards(rs);
      assert ShapeAll(gs).None? <==> missing;
      GroupsInOrderExams(rs);
      DistinctKeysOccur(rs);
      FirstIndexOccurs(rs, UnknownKey);
      if FirstIndex(rs, UnknownKey) < |rs| && rs[FirstIndex(rs, UnknownKey)].exam.None? {
        var i :| 0 <= i < |order| && order[i] == UnknownKey;
        assert gs[i].exam.None?;
      }
      if missing {
        var i :| 0 <= i < |gs| && gs[i].exam.None?;
        var first := rs[FirstIndex(rs, order[i])];
        assert ExamKey(first) == order[i];
      }
    }
  }

  /** Results: one per distinct key, no key twice, in the order the keys
      first occur among the records. */
  lemma ResultsOnePerKeyInOrder(rs: seq<Record>, views: seq<ResultView>)
    requires Respond(rs) == Sent(Response(200, ResultsBody(views)))
    ensures |views| == |DistinctKeys(rs)|
    ensures forall i :: 0 <= i < |views| ==> ViewKey(views[i]) == DistinctKeys(rs)[i]
    ensures forall k :: Occurs(rs, k) <==> exists i :: 0 <= i < |views| && ViewKey(views[i]) == k
    ensures forall i, j :: 0 <= i < j < |views| ==> ViewKey(views[i]) != ViewKey(views[j])
    ensures forall i, j :: 0 <= i < j < |views| ==>
              FirstIndex(rs, ViewKey(views[i])) < FirstIndex(rs, ViewKey(views[j])) < |rs|
  {
    var order, gs := DistinctKeys(rs), GroupsInOrder(rs);
    ResultsFromGroups(rs, views);
    GroupsInOrderExams(rs);
    DistinctKeysOccur(rs);
    DistinctKeysFirstOccurrenceOrder(rs);
    forall i | 0 <= i < |views| ensures ViewKey(views[i]) == order[i] {
      var first := rs[FirstIndex(rs, order[i])];
      assert ExamKey(first) == order[i];
      assert views[i].exam.id == first.exam.value.id;
    }
    forall k | Occurs(rs, k) ensures exists i :: 0 <= i < |views| && ViewKey(views[i]) == k {
      var i :| 0 <= i < |order| && order[i] == k;
      assert ViewKey(views[i]) == k;
    }
  }

  /** Results: the marks, feedback and evaluators of each result are
      index-aligned, one entry per record with its key, in input order. */
  lemma ResultsAligned(rs: seq<Record>, views: seq<ResultView>)
    requires Respond(rs) == Sent(Response(200, ResultsBody(views)))
    ensures forall i :: 0 <= i < |views| ==>
      var v, m := views[i], Matching(rs, ViewKey(views[i]));
      && m != []
      && |v.marks| == |v.feedback| == |v.evaluators| == |m|
      && forall j :: 0 <= j < |m| ==>
           v.marks[j] == m[j].marks && v.feedback[j] == m[j].feedback
           && v.evaluators[j] == ResolveEvaluator(m[j].evaluator)
  {
    var order, gs := DistinctKeys(rs), GroupsInOrder(rs);
    ResultsFromGroups(rs, views);
    ResultsOnePerKeyInOrder(rs, views);
    GroupsInOrderExams(rs);
    DistinctKeysOccur(rs);
    forall i | 0 <= i < |views| ensures Matching(rs, order[i]) != [] {
      MatchingEmpty(rs, order[i]);
    }
  }

  /** The number of records behind a list of results. */
  function RecordCount(views: seq<ResultView>): nat {
    if views == [] then 0 else RecordCount(views[..|views| - 1]) + |views[|views| - 1].marks|
  }

  lemma {:induction false} RecordCountBySizes(rs: seq<Record>, views: seq<ResultView>, ks: seq<string>)
    requires |views| == |ks|
    requires forall i :: 0 <= i < |views| ==> |views[i].marks| == |Matching(rs, ks[i])|
    ensures RecordCount(views) == SizeSum(rs, ks)
  {
    if views != [] {
      RecordCountBySizes(rs, views[..|views| - 1], ks[..|ks| - 1]);
    }
  }

  /** Results: every fetched record is counted in exactly one result. */
  lemma ResultsConserveRecords(rs: seq<Record>, views: seq<ResultView>)
    requires Respond(rs) == Sent(Response(200, ResultsBody(views)))
    ensures RecordCount(views) == |rs|
  {
    ResultsOnePerKeyInOrder(rs, views);
    ResultsAligned(rs, views);
    RecordCountBySizes(rs, views, DistinctKeys(rs));
    GroupsConserveRecords(rs);
  }

  lemma AveragePresent(marks: seq<seq<int>>, avg: Option<real>)
    requires marks != [] && avg == Average(Totals(marks))
    ensures avg.Some? && IsMean(avg.value, Totals(marks))
  {
  }

  /** Results: every average is present, and it is the mean of the
      evaluators' totals. */
  lemma ResultsAverages(rs: seq<Record>, views: seq<ResultView>)
    requires Respond(rs) == Sent(Response(200, ResultsBody(views)))
    ensures forall i :: 0 <= i < |views| ==>
      && views[i].averageMarks.Some?
      && IsMean(views[i].averageMarks.value, Totals(views[i].marks))
  {
    ResultsFromGroups(rs, views);
    forall i | 0 <= i < |views|
      ensures views[i].averageMarks.Some?
      ensures IsMean(views[i].averageMarks.value, Totals(views[i].marks))
    {
      AveragePresent(views[i].marks, views[i].averageMarks);
    }
  }
}
