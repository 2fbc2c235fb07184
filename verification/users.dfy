/** User registration and the `$inc` progress-counter updates that the
    assignment and submission handlers apply to the users collection. */
module Users {
  import opened Wrappers
  import opened Seqs
  import opened Documents

  /** The counters a handler increments (`progress.created`, `progress.submitted`). */
  datatype Counter = Created | Submitted

  function Bump(p: Progress, c: Counter): Progress {
    match c
    case Created => p.(created := p.created + 1)
    case Submitted => p.(submitted := p.submitted + 1)
  }

  /** `q` is `p` with counter `c` one higher and the other two counters equal. */
  predicate IncrementedBy(p: Progress, q: Progress, c: Counter) {
    && q.created == p.created + (if c == Created then 1 else 0)
    && q.submitted == p.submitted + (if c == Submitted then 1 else 0)
    && q.marked == p.marked
  }

  /** `users[i]` is the first user in `users` with its email. */
  predicate FirstWithEmail(users: seq<User>, i: nat) {
    i < |users| && forall j :: 0 <= j < i ==> users[j].email != users[i].email
  }

  /** The change `updateOne({email: e}, {$inc: {c: 1}})` makes: the first user
      whose email is `e` (if `e` is present) gets counter `c` raised by one,
      and every other user document stays as it was. */
  predicate CounterBumped(before: seq<User>, after: seq<User>, e: Option<Email>, c: Counter) {
    && |after| == |before|
    && forall i :: 0 <= i < |before| ==>
         if e == Some(before[i].email) && FirstWithEmail(before, i) then
           && after[i].email == before[i].email
           && after[i].name == before[i].name
           && after[i].photo == before[i].photo
           && IncrementedBy(before[i].progress, after[i].progress, c)
         else
           after[i] == before[i]
  }

  function HasEmail(e: Email): User -> bool {
    (u: User) => u.email == e
  }

  /** Raises counter `c` of the user with email `e`; silently does nothing when
      no user has that email. */
  function Increment(users: seq<User>, e: Email, c: Counter): (r: seq<User>)
    ensures CounterBumped(users, r, Some(e), c)
    ensures (forall i :: 0 <= i < |users| ==> users[i].email != e) ==> r == users
    ensures UniqueEmails(users) ==> UniqueEmails(r)
  {
    match FirstIndex(users, HasEmail(e))
    case None => users
    case Some(i) =>
      var r := users[i := users[i].(progress := Bump(users[i].progress, c))];
      assert FirstWithEmail(users, i);
      assert forall k :: 0 <= k < |users| && k != i && users[k].email == e ==> !FirstWithEmail(users, k) by {
        forall k | 0 <= k < |users| && k != i && users[k].email == e
          ensures !FirstWithEmail(users, k)
        {
          assert i < k;
          assert users[i].email == users[k].email;
        }
      }
      r
  }

  /** `Increment` for an optional email: a missing key matches no user. */
  function IncrementOpt(users: seq<User>, e: Option<Email>, c: Counter): (r: seq<User>)
    ensures CounterBumped(users, r, e, c)
    ensures UniqueEmails(users) ==> UniqueEmails(r)
  {
    match e
    case None => users
    case Some(email) => Increment(users, email, c)
  }

  /** With unique emails, the matching user is the only one whose counter moved. */
  lemma CounterBumpedUnique(before: seq<User>, after: seq<User>, e: Email, c: Counter)
    requires UniqueEmails(before)
    requires CounterBumped(before, after, Some(e), c)
    ensures forall i :: 0 <= i < |before| && before[i].email == e ==>
      IncrementedBy(before[i].progress, after[i].progress, c)
    ensures forall i :: 0 <= i < |before| && before[i].email != e ==> after[i] == before[i]
  {
    forall i | 0 <= i < |before| && before[i].email == e
      ensures IncrementedBy(before[i].progress, after[i].progress, c)
    {
      assert FirstWithEmail(before, i);
    }
  }

  datatype Registration = AlreadyExists | Registered(user: User)

  /** POST /users: inserts a user with zeroed progress unless one with the
      same email already exists, in which case nothing changes. */
  function RegisterUser(st: Store, e: Email, name: string, photo: string): (r: (Store, Registration))
    ensures (exists i :: 0 <= i < |st.users| && st.users[i].email == e) ==>
      r.0 == st && r.1 == AlreadyExists
    ensures (forall i :: 0 <= i < |st.users| ==> st.users[i].email != e) ==>
      && r.1.Registered?
      && r.1.user == User(e, name, photo, NewProgress)
      && r.0.users == st.users + [r.1.user]
      && r.0.assignments == st.assignments
      && r.0.submissions == st.submissions
      && r.0.nextId == st.nextId
    ensures Valid(st) ==> Valid(r.0)
    ensures exists i :: 0 <= i < |r.0.users| && r.0.users[i].email == e
  {
    match FindFirst(st.users, HasEmail(e))
    case Some(_) => (st, AlreadyExists)
    case None =>
      var u := User(e, name, photo, NewProgress);
      assert (st.users + [u])[|st.users|].email == e;
      (st.(users := st.users + [u]), Registered(u))
  }

  /** Registering the same email a second time is refused and changes nothing. */
  lemma RegisterTwice(st: Store, e: Email, name: string, photo: string, name': string, photo': string)
    ensures var st1 := RegisterUser(st, e, name, photo).0;
      RegisterUser(st1, e, name', photo') == (st1, AlreadyExists)
  {
  }
}
