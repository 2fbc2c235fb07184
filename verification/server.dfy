/** The state-changing routes of the server as one transition function over
    the store, and what holds over any sequence of requests. */
module Server {
  import opened Documents
  import opened Users
  import opened Assignments
  import opened Submissions
  import opened Ledger

  /** A state-changing request, with the time `new Date()` would read. */
  datatype Request =
    | PostUser(email: Email, name: string, photo: string)
    | PostAssignment(fields: Fields)
    | PostSubmission(body: SubmitRequest, now: Time)
    | PutSubmission(id: Id, mark: int, feedback: string, now: Time)
    | PutAssignment(id: Id, patch: Fields)
    | DeleteAssignmentById(id: Id)

  function Step(st: Store, req: Request): Store {
    match req
    case PostUser(e, name, photo) => RegisterUser(st, e, name, photo).0
    case PostAssignment(fields) => CreateAssignment(st, fields).0
    case PostSubmission(body, now) => Submit(st, body, now).0
    case PutSubmission(id, mark, feedback, now) => Grade(st, id, mark, feedback, now).0
    case PutAssignment(id, patch) => UpdateAssignment(st, id, patch).0
    case DeleteAssignmentById(id) => DeleteAssignment(st, id).0
  }

  /** Applies the requests in order. */
  function Run(st: Store, reqs: seq<Request>): Store
    decreases |reqs|
  {
    if |reqs| == 0 then st else Run(Step(st, reqs[0]), reqs[1..])
  }

  /** No user disappears or changes identity, no `created` or `submitted`
      counter goes down, and no `marked` counter changes at all. */
  predicate CountersGrew(before: seq<User>, after: seq<User>) {
    && |before| <= |after|
    && forall i :: 0 <= i < |before| ==>
         && after[i].email == before[i].email
         && after[i].progress.created >= before[i].progress.created
         && after[i].progress.submitted >= before[i].progress.submitted
         && after[i].progress.marked == before[i].progress.marked
  }

  lemma StepCountersGrow(st: Store, req: Request)
    ensures CountersGrew(st.users, Step(st, req).users)
  {
  }

  lemma {:induction false} RunCountersGrow(st: Store, reqs: seq<Request>)
    ensures CountersGrew(st.users, Run(st, reqs).users)
    decreases |reqs|
  {
    if |reqs| > 0 {
      var st1 := Step(st, reqs[0]);
      StepCountersGrow(st, reqs[0]);
      RunCountersGrow(st1, reqs[1..]);
    }
  }

  lemma {:induction false} RunKeepsValid(st: Store, reqs: seq<Request>)
    requires Valid(st)
    ensures Valid(Run(st, reqs))
    decreases |reqs|
  {
    if |reqs| > 0 {
      RunKeepsValid(Step(st, reqs[0]), reqs[1..]);
    }
  }

  /** Requests that move the ledger in step with the collections: creates,
      submits, grades, and updates that leave `creatorEmail` alone. The other
      requests can break it: a delete (`DeleteLeavesCreatedCount`), an update
      that rewrites the creator (`UpdateMovesCreator`), and a registration
      after the user's first submissions (`LateRegisterBreaksLedger`). */
  predicate LedgerRequest(req: Request) {
    || req.PostAssignment?
    || req.PostSubmission?
    || req.PutSubmission?
    || (req.PutAssignment? && CreatorKey !in req.patch)
  }

  /** Starting from a consistent store, any run of creates, submits, grades and
      creator-preserving updates leaves every user's `created` and `submitted`
      counters equal to the number of assignments and submissions they own. */
  lemma {:induction false} RunKeepsConsistent(st: Store, reqs: seq<Request>)
    requires Valid(st) && Consistent(st)
    requires forall i :: 0 <= i < |reqs| ==> LedgerRequest(reqs[i])
    ensures Consistent(Run(st, reqs))
    decreases |reqs|
  {
    if |reqs| > 0 {
      var req := reqs[0];
      assert LedgerRequest(req);
      if req.PostAssignment? {
        CreateKeepsConsistent(st, req.fields);
      } else if req.PostSubmission? {
        SubmitKeepsConsistent(st, req.body, req.now);
      } else if req.PutSubmission? {
        GradeKeepsConsistent(st, req.id, req.mark, req.feedback, req.now);
      } else {
        UpdateKeepsConsistent(st, req.id, req.patch);
      }
      RunKeepsConsistent(Step(st, req), reqs[1..]);
    }
  }
}
