/** The three document collections of the platform (users, assignments,
    submissions) and the invariant the handlers keep over them. */
module Documents {
  import opened Wrappers

  type Email = string

  /** A document id. Stands for a store-generated ObjectId; parsing of its
      textual form is not modelled. */
  type Id = nat

  /** A `new Date()` reading, supplied by the caller. */
  type Time = int

  /** A scalar JSON value from a request body. */
  datatype Value = Null | Bool(b: bool) | Num(n: int) | Str(s: string)

  /** The free-form fields of an assignment document, keyed by field name. */
  type Fields = map<string, Value>

  /** Per-user progress counters. */
  datatype Progress = Progress(created: nat, submitted: nat, marked: nat)

  /** The progress a freshly registered user starts with. */
  const NewProgress := Progress(0, 0, 0)

  datatype User = User(email: Email, name: string, photo: string, progress: Progress)

  datatype Assignment = Assignment(id: Id, fields: Fields)

  /** The field naming an assignment's creator. */
  const CreatorKey := "creatorEmail"

  /** The creator's email, when the assignment carries one as a string. */
  function CreatorOf(a: Assignment): Option<Email> {
    if CreatorKey in a.fields && a.fields[CreatorKey].Str? then Some(a.fields[CreatorKey].s) else None
  }

  const PendingStatus := "pending"
  const CompletedStatus := "completed"

  /** A submission. `receivedMark`, `feedback` and `markedAt` are absent until grading. */
  datatype Submission = Submission(
    id: Id,
    assignmentId: string,
    userEmail: Email,
    googleLink: string,
    note: string,
    title: string,
    marks: int,
    status: string,
    creatorName: string,
    submittedAt: Time,
    receivedMark: Option<int>,
    feedback: Option<string>,
    markedAt: Option<Time>)

  /** The database: three collections in insertion order, plus the next id the
      store will hand out. */
  datatype Store = Store(
    users: seq<User>,
    assignments: seq<Assignment>,
    submissions: seq<Submission>,
    nextId: Id)

  /** What `updateOne` reports: how many documents matched the filter and how
      many it actually changed. */
  datatype UpdateResult = UpdateResult(matchedCount: nat, modifiedCount: nat)

  const EmptyStore := Store([], [], [], 0)

  predicate UniqueEmails(users: seq<User>) {
    forall i, j :: 0 <= i < j < |users| ==> users[i].email != users[j].email
  }

  predicate AssignmentIdsFresh(assignments: seq<Assignment>, next: Id) {
    && (forall i :: 0 <= i < |assignments| ==> assignments[i].id < next)
    && (forall i, j :: 0 <= i < j < |assignments| ==> assignments[i].id != assignments[j].id)
  }

  predicate SubmissionIdsFresh(submissions: seq<Submission>, next: Id) {
    && (forall i :: 0 <= i < |submissions| ==> submissions[i].id < next)
    && (forall i, j :: 0 <= i < j < |submissions| ==> submissions[i].id != submissions[j].id)
  }

  /** Emails identify users; ids identify documents and are below `nextId`. */
  predicate Valid(st: Store) {
    && UniqueEmails(st.users)
    && AssignmentIdsFresh(st.assignments, st.nextId)
    && SubmissionIdsFresh(st.submissions, st.nextId)
  }
}
