/** The assignment handlers: create (with the creator's `created` counter),
    fetch by id, `$set`-merge update and delete. */
module Assignments {
  import opened Wrappers
  import opened Seqs
  import opened Documents
  import opened Users

  datatype Deletion = Deleted | NotFound

  function HasId(id: Id): Assignment -> bool {
    (a: Assignment) => a.id == id
  }

  /** GET /assignments/:id: the assignment with that id, or none. */
  function FindAssignment(st: Store, id: Id): (r: Option<Assignment>)
    ensures r.Some? ==> r.value in st.assignments && r.value.id == id
    ensures r.None? <==> forall i :: 0 <= i < |st.assignments| ==> st.assignments[i].id != id
  {
    FindFirst(st.assignments, HasId(id))
  }

  /** POST /assignments: stores the body as a new assignment under a fresh id
      and raises `progress.created` of the user named by its `creatorEmail`
      field (nothing happens to users when no user has that email). */
  function CreateAssignment(st: Store, fields: Fields): (r: (Store, Id))
    ensures r.1 == st.nextId && r.0.nextId == st.nextId + 1
    ensures r.0.assignments == st.assignments + [Assignment(r.1, fields)]
    ensures r.0.submissions == st.submissions
    ensures CounterBumped(st.users, r.0.users, CreatorOf(Assignment(r.1, fields)), Created)
    ensures Valid(st) ==> Valid(r.0)
  {
    var a := Assignment(st.nextId, fields);
    (Store(IncrementOpt(st.users, CreatorOf(a), Created), st.assignments + [a], st.submissions, st.nextId + 1),
     st.nextId)
  }

  /** The `$set` merge: keys of `patch` take the patch's values, every other
      key keeps its value. */
  function Merge(fields: Fields, patch: Fields): (r: Fields)
    ensures r.Keys == fields.Keys + patch.Keys
    ensures forall k :: k in patch ==> r[k] == patch[k]
    ensures forall k :: k in fields && k !in patch ==> r[k] == fields[k]
  {
    fields + patch
  }

  /** PUT /update-assignment/:id: merges `patch` into the assignment with that id. */
  function UpdateAssignment(st: Store, id: Id, patch: Fields): (r: (Store, UpdateResult))
    ensures (forall i :: 0 <= i < |st.assignments| ==> st.assignments[i].id != id) ==>
      r == (st, UpdateResult(0, 0))
    ensures r.0.users == st.users && r.0.submissions == st.submissions && r.0.nextId == st.nextId
    ensures |r.0.assignments| == |st.assignments|
    ensures forall i :: 0 <= i < |st.assignments| && st.assignments[i].id != id ==>
      r.0.assignments[i] == st.assignments[i]
    ensures AssignmentIdsFresh(st.assignments, st.nextId) ==>
      forall i :: 0 <= i < |st.assignments| && st.assignments[i].id == id ==>
        && r.0.assignments[i] == Assignment(id, Merge(st.assignments[i].fields, patch))
        && r.1.matchedCount == 1
        && (r.1.modifiedCount == 1 <==> r.0.assignments[i] != st.assignments[i])
    ensures r.1.modifiedCount <= r.1.matchedCount <= 1
    ensures Valid(st) ==> Valid(r.0)
  {
    match FirstIndex(st.assignments, HasId(id))
    case None => (st, UpdateResult(0, 0))
    case Some(i) =>
      var a := st.assignments[i];
      var a' := a.(fields := Merge(a.fields, patch));
      (st.(assignments := st.assignments[i := a']), UpdateResult(1, if a' == a then 0 else 1))
  }

  /** Applying the same patch twice has the effect of applying it once. */
  lemma UpdateIdempotent(st: Store, id: Id, patch: Fields)
    requires Valid(st)
    ensures var st1 := UpdateAssignment(st, id, patch).0;
      UpdateAssignment(st1, id, patch).0 == st1
  {
    var st1 := UpdateAssignment(st, id, patch).0;
    var st2 := UpdateAssignment(st1, id, patch).0;
    assert Valid(st1);
    forall i | 0 <= i < |st1.assignments|
      ensures st2.assignments[i] == st1.assignments[i]
    {
      if st1.assignments[i].id == id {
        var f := st.assignments[i].fields;
        assert Merge(Merge(f, patch), patch) == Merge(f, patch);
      }
    }
  }

  /** DELETE /assignments/:id: removes the assignment with that id, or reports
      NotFound and changes nothing. */
  function DeleteAssignment(st: Store, id: Id): (r: (Store, Deletion))
    ensures (forall i :: 0 <= i < |st.assignments| ==> st.assignments[i].id != id) ==>
      r == (st, NotFound)
    ensures (exists i :: 0 <= i < |st.assignments| && st.assignments[i].id == id) ==>
      r.1 == Deleted && |r.0.assignments| == |st.assignments| - 1
    ensures r.0.users == st.users && r.0.submissions == st.submissions && r.0.nextId == st.nextId
    ensures forall a :: a in st.assignments && a.id != id ==> a in r.0.assignments
    ensures forall a :: a in r.0.assignments ==> a in st.assignments
    ensures Valid(st) ==> Valid(r.0)
  {
    match FirstIndex(st.assignments, HasId(id))
    case None => (st, NotFound)
    case Some(i) =>
      RemoveAtMembers(st.assignments, i);
      RemoveAtIdsFresh(st.assignments, i, st.nextId);
      (st.(assignments := RemoveAt(st.assignments, i)), Deleted)
  }

  lemma RemoveAtMembers(s: seq<Assignment>, i: nat)
    requires i < |s|
    ensures forall k :: 0 <= k < |s| && k != i ==> s[k] in RemoveAt(s, i)
    ensures forall a :: a in RemoveAt(s, i) ==> a in s
  {
    var r := RemoveAt(s, i);
    forall k | 0 <= k < |s| && k != i
      ensures s[k] in r
    {
      if k < i { assert r[k] == s[k]; } else { assert r[k - 1] == s[k]; }
    }
    forall a | a in r
      ensures a in s
    {
      var m :| 0 <= m < |r| && r[m] == a;
      if m < i { assert r[m] == s[m]; } else { assert r[m] == s[m + 1]; }
    }
  }

  lemma RemoveAtIdsFresh(s: seq<Assignment>, i: nat, next: Id)
    requires i < |s|
    ensures AssignmentIdsFresh(s, next) ==> AssignmentIdsFresh(RemoveAt(s, i), next)
    ensures AssignmentIdsFresh(s, next) ==>
      forall m :: 0 <= m < |RemoveAt(s, i)| ==> RemoveAt(s, i)[m].id != s[i].id
  {
    var r := RemoveAt(s, i);
    assert forall m :: 0 <= m < |r| ==> r[m] == s[if m < i then m else m + 1];
  }

  /** After a delete, the id is gone: a fetch reports nothing. */
  lemma DeleteThenFind(st: Store, id: Id)
    requires Valid(st)
    ensures FindAssignment(DeleteAssignment(st, id).0, id).None?
  {
  }
}
