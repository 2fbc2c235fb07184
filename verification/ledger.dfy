/** The progress ledger: how the `created` and `submitted` counters relate to
    the collections they count, operation by operation. */
module Ledger {
  import opened Wrappers
  import opened Seqs
  import opened Documents
  import opened Users
  import opened Assignments
  import opened Submissions

  function ByCreator(e: Email): Assignment -> bool {
    (a: Assignment) => CreatorOf(a) == Some(e)
  }

  /** Every user's `created` counter equals the number of assignments naming
      them as creator, and `submitted` the number of submissions they made. */
  predicate Consistent(st: Store) {
    forall i :: 0 <= i < |st.users| ==>
      && st.users[i].progress.created == Count(st.assignments, ByCreator(st.users[i].email))
      && st.users[i].progress.submitted == Count(st.submissions, OfUser(st.users[i].email))
  }

  /** Creating an assignment keeps the counters in step with the collections. */
  lemma CreateKeepsConsistent(st: Store, fields: Fields)
    requires Valid(st) && Consistent(st)
    ensures Consistent(CreateAssignment(st, fields).0)
  {
    var st' := CreateAssignment(st, fields).0;
    var a := Assignment(st.nextId, fields);
    forall i | 0 <= i < |st.users|
      ensures st'.users[i].progress.created == Count(st'.assignments, ByCreator(st'.users[i].email))
      ensures st'.users[i].progress.submitted == Count(st'.submissions, OfUser(st'.users[i].email))
    {
      var e := st.users[i].email;
      CountAppend(st.assignments, a, ByCreator(e));
      if CreatorOf(a) == Some(e) {
        CounterBumpedUnique(st.users, st'.users, e, Created);
      }
    }
  }

  /** Submitting keeps the counters in step with the collections. */
  lemma SubmitKeepsConsistent(st: Store, req: SubmitRequest, now: Time)
    requires Valid(st) && Consistent(st)
    ensures Consistent(Submit(st, req, now).0)
  {
    var st' := Submit(st, req, now).0;
    var n := |st.submissions|;
    assert st'.submissions == st.submissions + [st'.submissions[n]];
    forall i | 0 <= i < |st.users|
      ensures st'.users[i].progress.created == Count(st'.assignments, ByCreator(st'.users[i].email))
      ensures st'.users[i].progress.submitted == Count(st'.submissions, OfUser(st'.users[i].email))
    {
      var e := st.users[i].email;
      CountAppend(st.submissions, st'.submissions[n], OfUser(e));
      CounterBumpedUnique(st.users, st'.users, req.userEmail, Submitted);
    }
  }

  /** Grading changes no submitter and no counter, so the ledger still agrees. */
  lemma GradeKeepsConsistent(st: Store, id: Id, mark: int, feedback: string, now: Time)
    requires Valid(st) && Consistent(st)
    ensures Consistent(Grade(st, id, mark, feedback, now).0)
  {
    var st' := Grade(st, id, mark, feedback, now).0;
    match FirstIndex(st.submissions, WithId(id))
    case None =>
    case Some(k) =>
      assert st'.submissions == st.submissions[k := st'.submissions[k]];
      forall i | 0 <= i < |st.users|
        ensures st'.users[i].progress.submitted == Count(st'.submissions, OfUser(st'.users[i].email))
      {
        CountUpdate(st.submissions, k, st'.submissions[k], OfUser(st.users[i].email));
      }
  }

  /** Registering an email that owns no assignment or submission yet starts
      its counters at zero, which agrees with the collections. */
  lemma RegisterKeepsConsistent(st: Store, e: Email, name: string, photo: string)
    requires Consistent(st)
    requires Count(st.assignments, ByCreator(e)) == 0 && Count(st.submissions, OfUser(e)) == 0
    ensures Consistent(RegisterUser(st, e, name, photo).0)
  {
  }

  /** Deleting an assignment does not lower its creator's `created` counter:
      from a consistent store with one user and one assignment by them, the
      delete leaves `created` at 1 while no assignment remains. */
  lemma DeleteLeavesCreatedCount(fields: Fields)
    requires CreatorKey in fields && fields[CreatorKey] == Str("a@x")
    ensures var st := Store([User("a@x", "A", "", Progress(1, 0, 0))], [Assignment(0, fields)], [], 1);
      && Consistent(st)
      && var st' := DeleteAssignment(st, 0).0;
         st'.users[0].progress.created == 1 && Count(st'.assignments, ByCreator("a@x")) == 0
  {
    var st := Store([User("a@x", "A", "", Progress(1, 0, 0))], [Assignment(0, fields)], [], 1);
    assert Count(st.assignments, ByCreator("a@x")) == 1 by {
      assert st.assignments[1..] == [];
    }
    var st' := DeleteAssignment(st, 0).0;
    assert |st'.assignments| == 0;
  }

  /** An update whose patch does not touch `creatorEmail` changes no creator,
      so the ledger still agrees. */
  lemma UpdateKeepsConsistent(st: Store, id: Id, patch: Fields)
    requires Valid(st) && Consistent(st)
    requires CreatorKey !in patch
    ensures Consistent(UpdateAssignment(st, id, patch).0)
  {
    var st' := UpdateAssignment(st, id, patch).0;
    match FirstIndex(st.assignments, HasId(id))
    case None =>
    case Some(k) =>
      assert st'.assignments == st.assignments[k := st'.assignments[k]];
      assert CreatorOf(st'.assignments[k]) == CreatorOf(st.assignments[k]);
      forall i | 0 <= i < |st.users|
        ensures st'.users[i].progress.created == Count(st'.assignments, ByCreator(st'.users[i].email))
      {
        CountUpdate(st.assignments, k, st'.assignments[k], ByCreator(st.users[i].email));
      }
  }

  /** An update that rewrites `creatorEmail` moves the assignment to another
      user without moving the counter: from a consistent store where `a@x`
      created the only assignment, patching its creator to `b@x` leaves
      `a@x` at `created` 1 with no assignment and `b@x` at 0 with one. */
  lemma UpdateMovesCreator(fields: Fields)
    requires CreatorKey in fields && fields[CreatorKey] == Str("a@x")
    ensures var st := Store([User("a@x", "A", "", Progress(1, 0, 0)), User("b@x", "B", "", NewProgress)],
                            [Assignment(0, fields)], [], 1);
      && Consistent(st)
      && var st' := UpdateAssignment(st, 0, map[CreatorKey := Str("b@x")]).0;
         && st'.users[0].progress.created == 1 && Count(st'.assignments, ByCreator("a@x")) == 0
         && st'.users[1].progress.created == 0 && Count(st'.assignments, ByCreator("b@x")) == 1
  {
    var st := Store([User("a@x", "A", "", Progress(1, 0, 0)), User("b@x", "B", "", NewProgress)],
                    [Assignment(0, fields)], [], 1);
    assert st.assignments[1..] == [];
    var st' := UpdateAssignment(st, 0, map[CreatorKey := Str("b@x")]).0;
    assert st'.assignments[0].fields[CreatorKey] == Str("b@x");
    assert st'.assignments[1..] == [];
  }

  /** A submission made before its author registers is never counted: the
      later registration starts `submitted` at 0 while one submission by that
      email exists. */
  lemma LateRegisterBreaksLedger(req: SubmitRequest, now: Time, name: string, photo: string)
    requires req.userEmail == "c@x"
    ensures var st1 := Submit(EmptyStore, req, now).0;
      && Consistent(st1)
      && var st2 := RegisterUser(st1, "c@x", name, photo).0;
         st2.users[0].progress.submitted == 0 && Count(st2.submissions, OfUser("c@x")) == 1
  {
    var st1 := Submit(EmptyStore, req, now).0;
    assert st1.submissions[1..] == [];
    var st2 := RegisterUser(st1, "c@x", name, photo).0;
    assert st2.submissions == st1.submissions;
  }
}
