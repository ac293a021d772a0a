/** Grouping of evaluation records by exam key into an insertion-ordered
    map, and the reference definitions the grouping loop is proved against. */
module ExamGrouping {
  import opened Common
  import opened EvaluationTypes

  /** One exam's group: the exam of the record that created it and three
      lists that grow together, one entry per record with that key. */
  datatype Group = Group(exam: Option<Exam>, marksList: seq<seq<int>>, feedbackList: seq<Feedback>, evaluators: seq<Evaluator>)

  /** Some record has key k. */
  ghost predicate Occurs(rs: seq<Record>, k: string) {
    exists i :: 0 <= i < |rs| && ExamKey(rs[i]) == k
  }

  ghost predicate NoDuplicates(ks: seq<string>) {
    forall i, j :: 0 <= i < j < |ks| ==> ks[i] != ks[j]
  }

  /** The records whose key is k, in input order. */
  function Matching(rs: seq<Record>, k: string): (m: seq<Record>)
    ensures |m| <= |rs|
    ensures forall r | r in m :: ExamKey(r) == k
  {
    if rs == [] then []
    else
      var init, last := rs[..|rs| - 1], rs[|rs| - 1];
      if ExamKey(last) == k then Matching(init, k) + [last] else Matching(init, k)
  }

  /** The matching records are exactly the records with key k, each as
      often as it occurs in the input: none dropped, none duplicated. */
  lemma {:induction false} MatchingExactly(rs: seq<Record>, k: string)
    ensures forall r :: multiset(Matching(rs, k))[r] == if ExamKey(r) == k then multiset(rs)[r] else 0
  {
    if rs != [] {
      var init, last := rs[..|rs| - 1], rs[|rs| - 1];
      assert rs == init + [last];
      MatchingExactly(init, k);
    }
  }

  /** Nothing matches a key that no record has. */
  lemma MatchingEmpty(rs: seq<Record>, k: string)
    ensures Matching(rs, k) == [] <==> !Occurs(rs, k)
  {
    var m := Matching(rs, k);
    MatchingExactly(rs, k);
    if m != [] {
      assert multiset(m)[m[0]] > 0;
      assert m[0] in rs;
      var i :| 0 <= i < |rs| && rs[i] == m[0];
      assert ExamKey(rs[i]) == k;
    }
    if Occurs(rs, k) {
      var i :| 0 <= i < |rs| && ExamKey(rs[i]) == k;
      assert multiset(rs)[rs[i]] > 0;
      assert multiset(m)[rs[i]] > 0;
    }
  }

  /** Appending a record extends the matching records of its own key only. */
  lemma MatchingSnoc(rs: seq<Record>, r: Record, k: string)
    ensures Matching(rs + [r], k) == if ExamKey(r) == k then Matching(rs, k) + [r] else Matching(rs, k)
  {
    assert (rs + [r])[..|rs|] == rs;
  }

  /** The distinct keys in order of first occurrence, as the grouping map
      acquires them. */
  function DistinctKeys(rs: seq<Record>): (ks: seq<string>)
    ensures NoDuplicates(ks)
  {
    if rs == [] then []
    else
      var prev := DistinctKeys(rs[..|rs| - 1]);
      var k := ExamKey(rs[|rs| - 1]);
      if k in prev then prev else prev + [k]
  }

  /** There is a distinct key for every key some record has, and no other. */
  lemma {:induction false} DistinctKeysOccur(rs: seq<Record>)
    ensures forall k :: k in DistinctKeys(rs) <==> Occurs(rs, k)
  {
    if rs != [] {
      var init, last := rs[..|rs| - 1], rs[|rs| - 1];
      assert rs == init + [last];
      DistinctKeysOccur(init);
      forall k ensures Occurs(rs, k) <==> Occurs(init, k) || ExamKey(last) == k {
        if Occurs(rs, k) {
          var i :| 0 <= i < |rs| && ExamKey(rs[i]) == k;
          if i < |init| { assert init[i] == rs[i]; }
        }
        if Occurs(init, k) {
          var i :| 0 <= i < |init| && ExamKey(init[i]) == k;
          assert rs[i] == init[i];
        }
      }
    }
  }

  /** The index of the first record with key k, or |rs| when there is none. */
  function FirstIndex(rs: seq<Record>, k: string): (n: nat)
    ensures n <= |rs|
    ensures n < |rs| ==> ExamKey(rs[n]) == k
    ensures forall p :: 0 <= p < n ==> ExamKey(rs[p]) != k
  {
    if rs == [] then 0
    else if ExamKey(rs[0]) == k then 0
    else 1 + FirstIndex(rs[1..], k)
  }

  /** A key occurs exactly when its first index lies inside the sequence. */
  lemma FirstIndexOccurs(rs: seq<Record>, k: string)
    ensures FirstIndex(rs, k) < |rs| <==> Occurs(rs, k)
  {
    if Occurs(rs, k) {
      var i :| 0 <= i < |rs| && ExamKey(rs[i]) == k;
      assert FirstIndex(rs, k) <= i;
    }
  }

  /** Appending a record leaves every earlier first index in place, and a
      new key first occurs at the appended position. */
  lemma FirstIndexSnoc(rs: seq<Record>, r: Record, k: string)
    ensures FirstIndex(rs, k) < |rs| ==> FirstIndex(rs + [r], k) == FirstIndex(rs, k)
    ensures FirstIndex(rs, k) == |rs| && ExamKey(r) == k ==> FirstIndex(rs + [r], k) == |rs|
  {
    var s := rs + [r];
    var n, m := FirstIndex(s, k), FirstIndex(rs, k);
    if m < |rs| {
      assert s[m] == rs[m];
      assert forall p :: 0 <= p < |rs| ==> s[p] == rs[p];
    } else if ExamKey(r) == k {
      assert s[|rs|] == r;
      assert forall p :: 0 <= p < |rs| ==> s[p] == rs[p];
    }
  }

  /** Groups come out in the order their keys first occur in the input. */
  lemma {:induction false} DistinctKeysFirstOccurrenceOrder(rs: seq<Record>)
    ensures forall i, j :: 0 <= i < j < |DistinctKeys(rs)| ==>
              FirstIndex(rs, DistinctKeys(rs)[i]) < FirstIndex(rs, DistinctKeys(rs)[j]) < |rs|
  {
    if rs != [] {
      var init, last := rs[..|rs| - 1], rs[|rs| - 1];
      assert rs == init + [last];
      DistinctKeysFirstOccurrenceOrder(init);
      DistinctKeysOccur(init);
      var prev, ks := DistinctKeys(init), DistinctKeys(rs);
      forall i | 0 <= i < |prev| ensures FirstIndex(rs, prev[i]) == FirstIndex(init, prev[i]) < |init| {
        FirstIndexOccurs(init, prev[i]);
        FirstIndexSnoc(init, last, prev[i]);
      }
      if ExamKey(last) !in prev {
        FirstIndexOccurs(init, ExamKey(last));
        FirstIndexSnoc(init, last, ExamKey(last));
        assert ks == prev + [ExamKey(last)];
        assert FirstIndex(rs, ks[|ks| - 1]) == |init|;
      }
    }
  }

  function MarksOf(m: seq<Record>): seq<seq<int>> {
    seq(|m|, i requires 0 <= i < |m| => m[i].marks)
  }

  function FeedbackOf(m: seq<Record>): seq<Feedback> {
    seq(|m|, i requires 0 <= i < |m| => m[i].feedback)
  }

  function EvaluatorsOf(m: seq<Record>): seq<Evaluator> {
    seq(|m|, i requires 0 <= i < |m| => ResolveEvaluator(m[i].evaluator))
  }

  /** The group the records with key k form: the first such record's exam,
      and one entry per such record in each list, in input order. */
  function GroupOf(rs: seq<Record>, k: string): (g: Group)
    ensures |g.marksList| == |g.feedbackList| == |g.evaluators| == |Matching(rs, k)|
    ensures Matching(rs, k) != [] ==> g.exam == Matching(rs, k)[0].exam
  {
    var m := Matching(rs, k);
    Group(if m == [] then None else m[0].exam, MarksOf(m), FeedbackOf(m), EvaluatorsOf(m))
  }

  /** Entry i of every list of a group comes from the i-th record with its
      key, so the three lists have the length of that record sequence. */
  lemma GroupOfAligned(rs: seq<Record>, k: string)
    ensures var g, m := GroupOf(rs, k), Matching(rs, k);
      && |g.marksList| == |g.feedbackList| == |g.evaluators| == |m|
      && (forall i :: 0 <= i < |m| ==>
            g.marksList[i] == m[i].marks && g.feedbackList[i] == m[i].feedback
            && g.evaluators[i] == ResolveEvaluator(m[i].evaluator))
  {
  }

  /** The `push` of one record into its group: each list grows by one
      entry taken from the record, and nothing else changes. */
  function Append(g: Group, r: Record): (a: Group)
    ensures a.exam == g.exam
    ensures |a.marksList| == |g.marksList| + 1 && a.marksList[..|g.marksList|] == g.marksList && a.marksList[|g.marksList|] == r.marks
    ensures |a.feedbackList| == |g.feedbackList| + 1 && a.feedbackList[..|g.feedbackList|] == g.feedbackList && a.feedbackList[|g.feedbackList|] == r.feedback
    ensures |a.evaluators| == |g.evaluators| + 1 && a.evaluators[..|g.evaluators|] == g.evaluators && a.evaluators[|g.evaluators|] == ResolveEvaluator(r.evaluator)
  {
    g.(marksList := g.marksList + [r.marks],
       feedbackList := g.feedbackList + [r.feedback],
       evaluators := g.evaluators + [ResolveEvaluator(r.evaluator)])
  }

  lemma ListsSnoc(m: seq<Record>, r: Record)
    ensures MarksOf(m + [r]) == MarksOf(m) + [r.marks]
    ensures FeedbackOf(m + [r]) == FeedbackOf(m) + [r.feedback]
    ensures EvaluatorsOf(m + [r]) == EvaluatorsOf(m) + [ResolveEvaluator(r.evaluator)]
  {
  }

  /** Appending a record creates or extends its own key's group only. */
  lemma GroupOfSnoc(rs: seq<Record>, r: Record, k: string)
    ensures ExamKey(r) != k ==> GroupOf(rs + [r], k) == GroupOf(rs, k)
    ensures ExamKey(r) == k && Occurs(rs, k) ==> GroupOf(rs + [r], k) == Append(GroupOf(rs, k), r)
    ensures ExamKey(r) == k && !Occurs(rs, k) ==> GroupOf(rs + [r], k) == Append(Group(r.exam, [], [], []), r)
  {
    MatchingSnoc(rs, r, k);
    MatchingEmpty(rs, k);
    ListsSnoc(Matching(rs, k), r);
  }

  lemma PrefixSnoc<T>(s: seq<T>, i: nat)
    requires i < |s|
    ensures s[..i + 1] == s[..i] + [s[i]]
  {
  }

  /** Appending a record adds its key at the end exactly when it is new. */
  lemma DistinctKeysSnoc(rs: seq<Record>, r: Record)
    ensures DistinctKeys(rs + [r]) ==
      if ExamKey(r) in DistinctKeys(rs) then DistinctKeys(rs) else DistinctKeys(rs) + [ExamKey(r)]
  {
    assert (rs + [r])[..|rs|] == rs;
  }

  /** One iteration of the grouping loop keeps every group equal to the
      group its key's records form. */
  lemma GroupsStep(done: seq<Record>, ev: Record, groups: map<string, Group>)
    requires forall k :: k in groups <==> Occurs(done, k)
    requires forall k :: k in groups ==> groups[k] == GroupOf(done, k)
    ensures var key := ExamKey(ev);
      var g := if key in groups then groups[key] else Group(ev.exam, [], [], []);
      var after := groups[key := Append(g, ev)];
      forall k :: k in after ==> after[k] == GroupOf(done + [ev], k)
  {
    var key := ExamKey(ev);
    var g := if key in groups then groups[key] else Group(ev.exam, [], [], []);
    var after := groups[key := Append(g, ev)];
    forall k | k in after ensures after[k] == GroupOf(done + [ev], k) {
      GroupOfSnoc(done, ev, k);
    }
  }

  /** The grouping state after the records rs: keys in insertion order,
      one group per key, each the group of that key's records. */
  ghost predicate GroupedAs(rs: seq<Record>, order: seq<string>, groups: map<string, Group>) {
    && order == DistinctKeys(rs)
    && (forall k :: k in groups <==> k in order)
    && (forall k :: k in groups ==> groups[k] == GroupOf(rs, k))
  }

  /** Every key in the insertion order has at least one record behind it. */
  lemma DistinctKeysNonEmpty(rs: seq<Record>)
    ensures forall k :: k in DistinctKeys(rs) ==> Matching(rs, k) != []
  {
    DistinctKeysOccur(rs);
    forall k | k in DistinctKeys(rs) ensures Matching(rs, k) != [] {
      MatchingEmpty(rs, k);
    }
  }

  /** The `forEach` callback: files one record under its key, creating the
      group (with the record's exam) the first time the key is seen, and
      pushes the record's marks, feedback and resolved evaluator. */
  method AddRecord(ghost done: seq<Record>, order: seq<string>, groups: map<string, Group>, ev: Record)
    returns (order': seq<string>, groups': map<string, Group>)
    requires GroupedAs(done, order, groups)
    ensures GroupedAs(done + [ev], order', groups')
  {
    var examKey := ExamKey(ev);
    DistinctKeysSnoc(done, ev);
    DistinctKeysOccur(done);
    GroupsStep(done, ev, groups);
    order', groups' := order, groups;
    if examKey !in groups' {
      groups' := groups'[examKey := Group(ev.exam, [], [], [])];
      order' := order' + [examKey];
    }
    groups' := groups'[examKey := Append(groups'[examKey], ev)];
  }

  /** The grouping loop over the records; `order` is the insertion order of
      the `resultsMap` dictionary. */
  method GroupByExam(records: seq<Record>) returns (order: seq<string>, groups: map<string, Group>)
    ensures order == DistinctKeys(records)
    ensures forall k :: k in groups <==> k in order
    ensures forall k :: k in groups ==> groups[k] == GroupOf(records, k)
  {
    order, groups := [], map[];
    var i := 0;
    while i < |records|
      invariant 0 <= i <= |records|
      invariant GroupedAs(records[..i], order, groups)
    {
      PrefixSnoc(records, i);
      order, groups := AddRecord(records[..i], order, groups, records[i]);
      i := i + 1;
    }
    assert records[..i] == records;
  }

  /** The total size of the groups of the given keys. */
  function SizeSum(rs: seq<Record>, ks: seq<string>): nat {
    if ks == [] then 0 else SizeSum(rs, ks[..|ks| - 1]) + |Matching(rs, ks[|ks| - 1])|
  }

  lemma {:induction false} SizeSumSnoc(rs: seq<Record>, r: Record, ks: seq<string>)
    requires NoDuplicates(ks)
    ensures SizeSum(rs + [r], ks) == SizeSum(rs, ks) + if ExamKey(r) in ks then 1 else 0
  {
    if ks != [] {
      var init, last := ks[..|ks| - 1], ks[|ks| - 1];
      assert ks == init + [last];
      SizeSumSnoc(rs, r, init);
      MatchingSnoc(rs, r, last);
    }
  }

  /** Conservation: every record lands in exactly one group. */
  lemma {:induction false} GroupsConserveRecords(rs: seq<Record>)
    ensures SizeSum(rs, DistinctKeys(rs)) == |rs|
  {
    if rs != [] {
      var init, last := rs[..|rs| - 1], rs[|rs| - 1];
      assert rs == init + [last];
      GroupsConserveRecords(init);
      var prev := DistinctKeys(init);
      SizeSumSnoc(init, last, prev);
      DistinctKeysOccur(init);
      if ExamKey(last) !in prev {
        var ks := prev + [ExamKey(last)];
        assert ks[..|ks| - 1] == prev;
        MatchingSnoc(init, last, ExamKey(last));
        MatchingEmpty(init, ExamKey(last));
      }
    }
  }
}
