/** The submission lifecycle: creating a submission (with the submitter's
    `submitted` counter), grading it, and the two submission listings. */
module Submissions {
  import opened Wrappers
  import opened Seqs
  import opened Sorting
  import opened Documents
  import opened Users

  /** The body of POST /submissions. */
  datatype SubmitRequest = SubmitRequest(
    assignmentId: string,
    userEmail: Email,
    googleLink: string,
    note: string,
    title: string,
    status: string,
    marks: int,
    creatorName: string)

  /** `s` carries exactly the request's fields, stamped at `now`, not yet graded. */
  predicate FromRequest(s: Submission, req: SubmitRequest, now: Time) {
    && s.assignmentId == req.assignmentId
    && s.userEmail == req.userEmail
    && s.googleLink == req.googleLink
    && s.note == req.note
    && s.title == req.title
    && s.status == req.status
    && s.marks == req.marks
    && s.creatorName == req.creatorName
    && s.submittedAt == now
    && s.receivedMark.None? && s.feedback.None? && s.markedAt.None?
  }

  /** POST /submissions: raises the submitter's `progress.submitted` (a no-op
      for an unregistered email) and appends the submission under a fresh id.
      The status is the one in the request; it is not forced to "pending". */
  function Submit(st: Store, req: SubmitRequest, now: Time): (r: (Store, Id))
    ensures r.1 == st.nextId && r.0.nextId == st.nextId + 1
    ensures |r.0.submissions| == |st.submissions| + 1
    ensures r.0.submissions[..|st.submissions|] == st.submissions
    ensures var s := r.0.submissions[|st.submissions|]; s.id == r.1 && FromRequest(s, req, now)
    ensures r.0.assignments == st.assignments
    ensures CounterBumped(st.users, r.0.users, Some(req.userEmail), Submitted)
    ensures Valid(st) ==> Valid(r.0)
  {
    var s := Submission(st.nextId, req.assignmentId, req.userEmail, req.googleLink, req.note,
                        req.title, req.marks, req.status, req.creatorName, now, None, None, None);
    assert (st.submissions + [s])[..|st.submissions|] == st.submissions;
    (Store(Increment(st.users, req.userEmail, Submitted), st.assignments, st.submissions + [s], st.nextId + 1),
     st.nextId)
  }

  /** `after` agrees with `before` on every field grading does not write. */
  predicate SameSubmissionData(before: Submission, after: Submission) {
    && after.id == before.id
    && after.assignmentId == before.assignmentId
    && after.userEmail == before.userEmail
    && after.googleLink == before.googleLink
    && after.note == before.note
    && after.title == before.title
    && after.marks == before.marks
    && after.creatorName == before.creatorName
    && after.submittedAt == before.submittedAt
  }

  /** `after` is `before` graded with `mark` and `feedback` at `now`. */
  predicate GradedAs(before: Submission, after: Submission, mark: int, feedback: string, now: Time) {
    && SameSubmissionData(before, after)
    && after.status == CompletedStatus
    && after.receivedMark == Some(mark)
    && after.feedback == Some(feedback)
    && after.markedAt == Some(now)
  }

  function WithId(id: Id): Submission -> bool {
    (s: Submission) => s.id == id
  }

  /** PUT /submissions/:id: sets status "completed", the received mark, the
      feedback and the marking time on the submission with that id, whatever
      its current status. No progress counter is touched. */
  function Grade(st: Store, id: Id, mark: int, feedback: string, now: Time): (r: (Store, UpdateResult))
    ensures (forall i :: 0 <= i < |st.submissions| ==> st.submissions[i].id != id) ==>
      r == (st, UpdateResult(0, 0))
    ensures r.0.users == st.users && r.0.assignments == st.assignments && r.0.nextId == st.nextId
    ensures |r.0.submissions| == |st.submissions|
    ensures forall i :: 0 <= i < |st.submissions| && st.submissions[i].id != id ==>
      r.0.submissions[i] == st.submissions[i]
    ensures SubmissionIdsFresh(st.submissions, st.nextId) ==>
      forall i :: 0 <= i < |st.submissions| && st.submissions[i].id == id ==>
        && GradedAs(st.submissions[i], r.0.submissions[i], mark, feedback, now)
        && r.1.matchedCount == 1
        && (r.1.modifiedCount == 1 <==> r.0.submissions[i] != st.submissions[i])
    ensures r.1.modifiedCount <= r.1.matchedCount <= 1
    ensures Valid(st) ==> Valid(r.0)
  {
    match FirstIndex(st.submissions, WithId(id))
    case None => (st, UpdateResult(0, 0))
    case Some(i) =>
      var s := st.submissions[i];
      var s' := s.(status := CompletedStatus, receivedMark := Some(mark), feedback := Some(feedback), markedAt := Some(now));
      (st.(submissions := st.submissions[i := s']), UpdateResult(1, if s' == s then 0 else 1))
  }

  /** Re-grading is allowed and simply overwrites: grading twice leaves the
      store as grading once with the second mark, feedback and time. */
  lemma RegradeOverwrites(st: Store, id: Id, m1: int, f1: string, t1: Time, m2: int, f2: string, t2: Time)
    requires Valid(st)
    ensures Grade(Grade(st, id, m1, f1, t1).0, id, m2, f2, t2).0 == Grade(st, id, m2, f2, t2).0
  {
    var once := Grade(st, id, m1, f1, t1).0;
    var twice := Grade(once, id, m2, f2, t2).0;
    var direct := Grade(st, id, m2, f2, t2).0;
    assert Valid(once);
    forall i | 0 <= i < |st.submissions|
      ensures twice.submissions[i] == direct.submissions[i]
    {
      if st.submissions[i].id == id {
        assert GradedAs(once.submissions[i], twice.submissions[i], m2, f2, t2);
        assert GradedAs(st.submissions[i], direct.submissions[i], m2, f2, t2);
      }
    }
  }

  /** Key of the `.sort({submittedAt: -1})` used by both listings. */
  function SubmittedKey(s: Submission): Key {
    Val(s.submittedAt as real)
  }

  /** Sorts a listing newest first. */
  function NewestFirst(s: seq<Submission>): (r: seq<Submission>)
    ensures forall i, j :: 0 <= i < j < |r| ==> r[i].submittedAt >= r[j].submittedAt
    ensures multiset(r) == multiset(s)
  {
    var r := SortDesc(s, SubmittedKey);
    assert forall i, j :: 0 <= i < j < |r| ==> AtLeast(SubmittedKey(r[i]), SubmittedKey(r[j]));
    r
  }

  function OfUser(e: Email): Submission -> bool {
    (s: Submission) => s.userEmail == e
  }

  function IsPending(s: Submission): bool {
    s.status == PendingStatus
  }

  /** GET /submissions: the caller's submissions, newest first. */
  function MySubmissions(st: Store, e: Email): (r: seq<Submission>)
    ensures forall s :: s in r <==> s in st.submissions && s.userEmail == e
    ensures |r| == Count(st.submissions, OfUser(e))
    ensures forall i, j :: 0 <= i < j < |r| ==> r[i].submittedAt >= r[j].submittedAt
  {
    var f := Filter(st.submissions, OfUser(e));
    var r := NewestFirst(f);
    assert forall s :: s in r <==> s in multiset(f);
    r
  }

  /** GET /pending-assignments (without a title search): the submissions whose
      status is "pending", newest first. */
  function PendingSubmissions(st: Store): (r: seq<Submission>)
    ensures forall s :: s in r <==> s in st.submissions && s.status == PendingStatus
    ensures |r| == Count(st.submissions, IsPending)
    ensures forall i, j :: 0 <= i < j < |r| ==> r[i].submittedAt >= r[j].submittedAt
  {
    var f := Filter(st.submissions, IsPending);
    var r := NewestFirst(f);
    assert forall s :: s in r <==> s in multiset(f);
    r
  }

  /** A submission, once graded, shows up in its author's listing as completed
      with the mark and the marking time. */
  lemma SubmitGradeList(st: Store, req: SubmitRequest, t0: Time, mark: int, feedback: string, t1: Time)
    requires Valid(st)
    ensures var (st1, id) := Submit(st, req, t0);
      var st2 := Grade(st1, id, mark, feedback, t1).0;
      exists s :: s in MySubmissions(st2, req.userEmail) &&
        s.id == id && s.status == CompletedStatus && s.receivedMark == Some(mark) && s.markedAt == Some(t1)
  {
    var (st1, id) := Submit(st, req, t0);
    var st2 := Grade(st1, id, mark, feedback, t1).0;
    var n := |st.submissions|;
    assert st1.submissions[n].id == id;
    assert GradedAs(st1.submissions[n], st2.submissions[n], mark, feedback, t1);
    assert st2.submissions[n] in st2.submissions;
  }
}
