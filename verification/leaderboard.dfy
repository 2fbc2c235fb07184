/** GET /leaderboard: the aggregation over completed submissions (`$match`,
    `$group` with `$avg`, `$sort` descending, `$limit`) followed by the join of
    each surviving group with its user's name and photo. */
module Leaderboard {
  import opened Wrappers
  import opened Seqs
  import opened Sorting
  import opened Documents
  import opened Users

  /** The `$limit` stage. */
  const Limit: nat := 20

  /** One `$group` output: a submitter and the `$avg` of their marks, which is
      null when none of their completed submissions carries a numeric mark. */
  datatype Group = Group(email: Email, average: Option<real>)

  /** One leaderboard row; `name` and `photo` are absent when no user has the email. */
  datatype Entry = Entry(email: Email, name: Option<string>, photo: Option<string>, averageMark: real)

  /** A null average reached the `toFixed` call; the handler answers with an
      internal server error instead of a leaderboard. */
  datatype Failure = NullAverage

  predicate IsCompleted(s: Submission) {
    s.status == CompletedStatus
  }

  /** `s` contributes a number to the average of `e`. */
  predicate MarkCounts(s: Submission, e: Email) {
    IsCompleted(s) && s.userEmail == e && s.receivedMark.Some?
  }

  function CountsFor(e: Email): Submission -> bool {
    (s: Submission) => MarkCounts(s, e)
  }

  /** The numeric received marks of `e`'s completed submissions, in store
      order: what `$avg` averages for the group `e` (it skips nulls). */
  function CompletedMarks(subs: seq<Submission>, e: Email): (r: seq<int>)
    ensures |r| == Count(subs, CountsFor(e))
    decreases |subs|
  {
    if |subs| == 0 then []
    else
      var rest := CompletedMarks(subs[1..], e);
      if MarkCounts(subs[0], e) then [subs[0].receivedMark.value] + rest else rest
  }

  /** `s` contributes the number `x` to the average of `e`. */
  function GivesMark(e: Email, x: int): Submission -> bool {
    (s: Submission) => MarkCounts(s, e) && s.receivedMark == Some(x)
  }

  /** Every mark `e` received on a completed submission is averaged, as many
      times as it was received, and nothing else is. */
  lemma {:induction false} CompletedMarksExact(subs: seq<Submission>, e: Email)
    ensures forall k :: 0 <= k < |subs| && MarkCounts(subs[k], e) ==>
      subs[k].receivedMark.value in CompletedMarks(subs, e)
    ensures forall x :: x in CompletedMarks(subs, e) ==>
      exists k :: 0 <= k < |subs| && MarkCounts(subs[k], e) && subs[k].receivedMark == Some(x)
    ensures forall x :: multiset(CompletedMarks(subs, e))[x] == Count(subs, GivesMark(e, x))
    decreases |subs|
  {
    if |subs| > 0 {
      CompletedMarksExact(subs[1..], e);
      assert forall k :: 1 <= k < |subs| ==> subs[k] == subs[1..][k - 1];
    }
  }

  /** The emails of the completed submissions, one per submission. */
  function CompletedEmails(subs: seq<Submission>): (r: seq<Email>)
    ensures forall e :: e in r <==> exists k :: 0 <= k < |subs| && IsCompleted(subs[k]) && subs[k].userEmail == e
    decreases |subs|
  {
    if |subs| == 0 then []
    else
      var rest := CompletedEmails(subs[1..]);
      assert forall k :: 1 <= k < |subs| ==> subs[k] == subs[1..][k - 1];
      if IsCompleted(subs[0]) then [subs[0].userEmail] + rest else rest
  }

  /** The group a submitter forms in the aggregation. */
  function GroupOf(subs: seq<Submission>, e: Email): Group {
    Group(e, Mean(CompletedMarks(subs, e)))
  }

  /** `e` has at least one completed submission. */
  predicate HasCompleted(subs: seq<Submission>, e: Email) {
    exists k :: 0 <= k < |subs| && IsCompleted(subs[k]) && subs[k].userEmail == e
  }

  /** `$match` + `$group`: one group per email that has a completed submission. */
  function Groups(subs: seq<Submission>): (r: seq<Group>)
    ensures Distinct(r)
    ensures forall i :: 0 <= i < |r| ==> r[i] == GroupOf(subs, r[i].email)
    ensures forall i :: 0 <= i < |r| ==> HasCompleted(subs, r[i].email)
    ensures forall k :: 0 <= k < |subs| && IsCompleted(subs[k]) ==>
      exists i :: 0 <= i < |r| && r[i].email == subs[k].userEmail
  {
    var emails := Dedup(CompletedEmails(subs));
    var r := seq(|emails|, i requires 0 <= i < |emails| => GroupOf(subs, emails[i]));
    GroupsFacts(subs, emails, r);
    r
  }

  lemma GroupsFacts(subs: seq<Submission>, emails: seq<Email>, r: seq<Group>)
    requires Distinct(emails)
    requires forall i :: 0 <= i < |CompletedEmails(subs)| ==> CompletedEmails(subs)[i] in emails
    requires forall i :: 0 <= i < |emails| ==> emails[i] in CompletedEmails(subs)
    requires |r| == |emails| && forall i :: 0 <= i < |emails| ==> r[i] == GroupOf(subs, emails[i])
    ensures Distinct(r)
    ensures forall i :: 0 <= i < |r| ==> HasCompleted(subs, r[i].email)
    ensures forall k :: 0 <= k < |subs| && IsCompleted(subs[k]) ==>
      exists i :: 0 <= i < |r| && r[i].email == subs[k].userEmail
  {
    var ce := CompletedEmails(subs);
    forall i | 0 <= i < |r|
      ensures HasCompleted(subs, r[i].email)
    {
      assert r[i].email == emails[i] && emails[i] in ce;
    }
    forall k | 0 <= k < |subs| && IsCompleted(subs[k])
      ensures exists i :: 0 <= i < |r| && r[i].email == subs[k].userEmail
    {
      var e := subs[k].userEmail;
      assert e in ce;
      var j :| 0 <= j < |ce| && ce[j] == e;
      assert e in emails;
      var i :| 0 <= i < |emails| && emails[i] == e;
      assert r[i].email == e;
    }
  }

  /** The `$sort` key: the average, a null one ranking last. */
  function AverageKey(g: Group): Key {
    match g.average
    case None => Missing
    case Some(a) => Val(a)
  }

  /** `g` ranks at least as high as `other`. */
  predicate Outranks(g: Group, other: Group) {
    AtLeast(AverageKey(g), AverageKey(other))
  }

  /** `$sort: {averageMark: -1}` then `$limit`: at most `Limit` of the groups,
      highest average first, null averages last. */
  function Ranked(subs: seq<Submission>): (r: seq<Group>)
    ensures |r| <= Limit
    ensures SortedDesc(r, AverageKey)
    ensures Distinct(r)
    ensures forall i :: 0 <= i < |r| ==> r[i] in Groups(subs)
  {
    var gs := Groups(subs);
    var sorted := SortDesc(gs, AverageKey);
    TakeSortedMembers(gs, sorted, Limit);
    Take(sorted, Limit)
  }

  /** No submitter's group is cut off by the limit while a lower-ranked group
      is kept. */
  lemma RankedKeepsTop(subs: seq<Submission>, k: nat)
    requires k < |subs| && IsCompleted(subs[k])
    ensures var g := GroupOf(subs, subs[k].userEmail);
      || g in Ranked(subs)
      || (|Ranked(subs)| == Limit && forall i :: 0 <= i < |Ranked(subs)| ==> Outranks(Ranked(subs)[i], g))
  {
    var gs := Groups(subs);
    CompletedInGroups(subs, k);
    TakeSortedKeepsTop(gs, SortDesc(gs, AverageKey), Limit, AverageKey, GroupOf(subs, subs[k].userEmail));
  }

  /** What a group of the aggregation is. */
  lemma InGroups(subs: seq<Submission>, g: Group)
    ensures g in Groups(subs) ==> g == GroupOf(subs, g.email) && HasCompleted(subs, g.email)
  {
    var gs := Groups(subs);
    if g in gs {
      var i :| 0 <= i < |gs| && gs[i] == g;
    }
  }

  /** Every submitter with a completed submission forms a group. */
  lemma CompletedInGroups(subs: seq<Submission>, k: nat)
    requires k < |subs| && IsCompleted(subs[k])
    ensures GroupOf(subs, subs[k].userEmail) in Groups(subs)
  {
    var gs := Groups(subs);
    var i :| 0 <= i < |gs| && gs[i].email == subs[k].userEmail;
    assert gs[i] == GroupOf(subs, subs[k].userEmail);
  }

  /** The user whose name and photo an entry shows (`findOne({email})`). */
  function UserOf(users: seq<User>, e: Email): Option<User> {
    FindFirst(users, HasEmail(e))
  }

  /** An entry for a group with a numeric average, joined with its user. */
  function Join(users: seq<User>, g: Group): Entry
    requires g.average.Some?
  {
    var u := UserOf(users, g.email);
    Entry(g.email,
          if u.Some? then Some(u.value.name) else None,
          if u.Some? then Some(u.value.photo) else None,
          g.average.value)
  }

  /** `x` shows the name and photo of the user with its email, or none. */
  predicate JoinedWith(x: Entry, users: seq<User>) {
    && ((exists k :: 0 <= k < |users| && users[k].email == x.email) <==> x.name.Some?)
    && (x.name.Some? <==> x.photo.Some?)
    && (x.name.Some? ==> exists k :: 0 <= k < |users| && users[k].email == x.email
                                     && users[k].name == x.name.value && users[k].photo == x.photo.value)
  }

  /** The join step over the kept groups. */
  function Entries(users: seq<User>, ranked: seq<Group>): (r: seq<Entry>)
    requires forall i :: 0 <= i < |ranked| ==> ranked[i].average.Some?
    ensures |r| == |ranked|
    ensures forall i :: 0 <= i < |r| ==>
      r[i].email == ranked[i].email && r[i].averageMark == ranked[i].average.value
    ensures forall i :: 0 <= i < |r| ==> JoinedWith(r[i], users)
    ensures EntriesOf(ranked, r)
  {
    seq(|ranked|, i requires 0 <= i < |ranked| => Join(users, ranked[i]))
  }

  /** `a` is the mean of the marks `xs`, which are not empty. */
  predicate IsMeanOf(a: real, xs: seq<int>) {
    && |xs| > 0
    && Times(|xs|, a) == Sum(xs) as real
    && Min(xs) as real <= a <= Max(xs) as real
  }

  /** Every submitter with a completed submission either has an entry, or
      the board is full and each entry's average is at least theirs. */
  predicate LeftOutOnlyBelow(board: seq<Entry>, subs: seq<Submission>, e: Email) {
    || (exists i :: 0 <= i < |board| && board[i].email == e)
    || (&& |board| == Limit
        && forall i :: 0 <= i < |board| ==>
             |CompletedMarks(subs, e)| > 0 ==> board[i].averageMark >= Mean(CompletedMarks(subs, e)).value)
  }

  /** GET /leaderboard. */
  function ComputeLeaderboard(st: Store): (r: Result<seq<Entry>, Failure>)
    ensures r.Ok? ==> |r.value| <= Limit
    ensures r.Ok? ==> forall i, j :: 0 <= i < j < |r.value| ==> r.value[i].averageMark >= r.value[j].averageMark
    ensures r.Ok? ==> forall i, j :: 0 <= i < j < |r.value| ==> r.value[i].email != r.value[j].email
    ensures r.Ok? ==> forall i :: 0 <= i < |r.value| ==>
      IsMeanOf(r.value[i].averageMark, CompletedMarks(st.submissions, r.value[i].email))
    ensures r.Ok? ==> forall i :: 0 <= i < |r.value| ==> JoinedWith(r.value[i], st.users)
    ensures r.Ok? ==> forall k :: 0 <= k < |st.submissions| && IsCompleted(st.submissions[k]) ==>
      LeftOutOnlyBelow(r.value, st.submissions, st.submissions[k].userEmail)
    ensures r.Err? <==> UnmarkedSubmitter(st.submissions) && !FillsBoard(st.submissions)
  {
    var ranked := Ranked(st.submissions);
    FailsExactly(st.submissions);
    if HasNullAverage(ranked) then
      Err(NullAverage)
    else
      var board := Entries(st.users, ranked);
      BoardSorted(ranked, board);
      BoardDistinct(st.submissions, ranked, board);
      BoardMeans(st.submissions, ranked, board);
      BoardComplete(st.submissions, board);
      Ok(board)
  }

  predicate HasNullAverage(ranked: seq<Group>) {
    exists i :: 0 <= i < |ranked| && ranked[i].average.None?
  }

  /** Some submitter has a completed submission but no numeric mark, so their
      group's average is null. */
  predicate UnmarkedSubmitter(subs: seq<Submission>) {
    exists k :: 0 <= k < |subs| && IsCompleted(subs[k]) && |CompletedMarks(subs, subs[k].userEmail)| == 0
  }

  /** At least `Limit` different submitters have a numeric mark, enough to
      fill the board with numeric averages. */
  ghost predicate FillsBoard(subs: seq<Submission>) {
    exists es: seq<Email> :: |es| == Limit && Distinct(es) &&
      forall i :: 0 <= i < |es| ==> |CompletedMarks(subs, es[i])| > 0
  }

  /** A null average among the kept groups comes from a submitter whose
      completed submissions carry no numeric mark. */
  lemma NullAverageWitness(subs: seq<Submission>)
    ensures HasNullAverage(Ranked(subs)) ==> UnmarkedSubmitter(subs)
  {
    var ranked := Ranked(subs);
    if HasNullAverage(ranked) {
      var i :| 0 <= i < |ranked| && ranked[i].average.None?;
      InGroups(subs, ranked[i]);
      var e := ranked[i].email;
      var k :| 0 <= k < |subs| && IsCompleted(subs[k]) && subs[k].userEmail == e;
      assert Mean(CompletedMarks(subs, e)).None?;
    }
  }

  /** A submitter with a numeric mark forms a group with a numeric average. */
  lemma MarkedInGroups(subs: seq<Submission>, e: Email)
    requires |CompletedMarks(subs, e)| > 0
    ensures GroupOf(subs, e) in Groups(subs) && GroupOf(subs, e).average.Some?
  {
    CompletedMarksExact(subs, e);
    var x := CompletedMarks(subs, e)[0];
    assert x in CompletedMarks(subs, e);
    var k :| 0 <= k < |subs| && MarkCounts(subs[k], e) && subs[k].receivedMark == Some(x);
    CompletedInGroups(subs, k);
  }

  lemma RankedIsTop(subs: seq<Submission>)
    ensures Ranked(subs) == Take(SortDesc(Groups(subs), AverageKey), Limit)
  {
  }

  /** In a descending arrangement, `n` distinct groups with numeric averages
      all come before the first null one. */
  lemma NullsAfterNumbers(sorted: seq<Group>, top: seq<Group>)
    requires SortedDesc(sorted, AverageKey)
    requires Distinct(top)
    requires forall i :: 0 <= i < |top| ==> top[i] in sorted && top[i].average.Some?
    ensures forall p :: 0 <= p < |sorted| && sorted[p].average.None? ==> p >= |top|
  {
    forall p | 0 <= p < |sorted| && sorted[p].average.None?
      ensures p >= |top|
    {
      forall i | 0 <= i < |top|
        ensures top[i] in sorted[..p]
      {
        var q :| 0 <= q < |sorted| && sorted[q] == top[i];
        assert q < p by {
          assert q != p;
          assert q > p ==> AtLeast(AverageKey(sorted[p]), AverageKey(sorted[q]));
        }
        assert sorted[..p][q] == top[i];
      }
      DistinctWithin(top, sorted[..p]);
    }
  }

  /** The groups of `Limit` distinct submitters with numeric marks. */
  lemma MarkedGroups(subs: seq<Submission>, es: seq<Email>) returns (top: seq<Group>)
    requires Distinct(es)
    requires forall i :: 0 <= i < |es| ==> |CompletedMarks(subs, es[i])| > 0
    ensures |top| == |es| && Distinct(top)
    ensures forall i :: 0 <= i < |top| ==> top[i] in SortDesc(Groups(subs), AverageKey) && top[i].average.Some?
  {
    top := seq(|es|, i requires 0 <= i < |es| => GroupOf(subs, es[i]));
    forall i | 0 <= i < |top|
      ensures top[i] in SortDesc(Groups(subs), AverageKey) && top[i].average.Some?
    {
      MarkedInGroups(subs, es[i]);
      SortDescSameElements(Groups(subs), AverageKey, top[i]);
    }
  }

  /** When `Limit` submitters have numeric averages, every null group sorts
      below all of them and is cut by the limit. */
  lemma FullBoardHasNoNull(subs: seq<Submission>)
    ensures FillsBoard(subs) ==> !HasNullAverage(Ranked(subs))
  {
    if FillsBoard(subs) {
      var es: seq<Email> :| |es| == Limit && Distinct(es) &&
        forall i :: 0 <= i < |es| ==> |CompletedMarks(subs, es[i])| > 0;
      var sorted := SortDesc(Groups(subs), AverageKey);
      var top := MarkedGroups(subs, es);
      NullsAfterNumbers(sorted, top);
      RankedIsTop(subs);
      var ranked := Ranked(subs);
      assert forall p :: 0 <= p < |ranked| ==> ranked[p] == sorted[p];
    }
  }

  /** A null group that is not kept means the limit was reached. */
  lemma CutMeansFull(sorted: seq<Group>, g: Group)
    requires g in sorted && g.average.None?
    ensures !HasNullAverage(Take(sorted, Limit)) ==> |Take(sorted, Limit)| == Limit
  {
    var ranked := Take(sorted, Limit);
    var q :| 0 <= q < |sorted| && sorted[q] == g;
    if q < |ranked| {
      assert ranked[q] == g;
    }
  }

  /** The emails of the kept groups are distinct, and when no kept average
      is null each of them has a numeric mark. */
  lemma KeptEmails(subs: seq<Submission>) returns (es: seq<Email>)
    ensures |es| == |Ranked(subs)| && Distinct(es)
    ensures !HasNullAverage(Ranked(subs)) ==> forall i :: 0 <= i < |es| ==> |CompletedMarks(subs, es[i])| > 0
  {
    var ranked := Ranked(subs);
    es := seq(|ranked|, i requires 0 <= i < |ranked| => ranked[i].email);
    forall i | 0 <= i < |es|
      ensures ranked[i] == GroupOf(subs, es[i])
    {
      InGroups(subs, ranked[i]);
    }
  }

  /** When no null group is kept although some submitter has one, the limit
      cut it: the board holds `Limit` submitters with numeric averages. */
  lemma UnmarkedCutOnlyByFullBoard(subs: seq<Submission>)
    ensures UnmarkedSubmitter(subs) && !HasNullAverage(Ranked(subs)) ==> FillsBoard(subs)
  {
    if UnmarkedSubmitter(subs) && !HasNullAverage(Ranked(subs)) {
      var k :| 0 <= k < |subs| && IsCompleted(subs[k]) && |CompletedMarks(subs, subs[k].userEmail)| == 0;
      var g := GroupOf(subs, subs[k].userEmail);
      CompletedInGroups(subs, k);
      SortDescSameElements(Groups(subs), AverageKey, g);
      RankedIsTop(subs);
      CutMeansFull(SortDesc(Groups(subs), AverageKey), g);
      var es := KeptEmails(subs);
      assert |es| == Limit;
    }
  }

  /** A null average is kept exactly when some submitter has no numeric mark
      and fewer than `Limit` submitters have one. */
  lemma FailsExactly(subs: seq<Submission>)
    ensures HasNullAverage(Ranked(subs)) <==> UnmarkedSubmitter(subs) && !FillsBoard(subs)
  {
    NullAverageWitness(subs);
    FullBoardHasNoNull(subs);
    UnmarkedCutOnlyByFullBoard(subs);
  }

  lemma BoardSorted(ranked: seq<Group>, board: seq<Entry>)
    requires SortedDesc(ranked, AverageKey)
    requires forall i :: 0 <= i < |ranked| ==> ranked[i].average.Some?
    requires |board| == |ranked|
    requires forall i :: 0 <= i < |board| ==> board[i].averageMark == ranked[i].average.value
    ensures forall i, j :: 0 <= i < j < |board| ==> board[i].averageMark >= board[j].averageMark
  {
    forall i, j | 0 <= i < j < |board|
      ensures board[i].averageMark >= board[j].averageMark
    {
      assert AtLeast(AverageKey(ranked[i]), AverageKey(ranked[j]));
    }
  }

  lemma BoardDistinct(subs: seq<Submission>, ranked: seq<Group>, board: seq<Entry>)
    requires Distinct(ranked)
    requires forall i :: 0 <= i < |ranked| ==> ranked[i] in Groups(subs)
    requires |board| == |ranked|
    requires forall i :: 0 <= i < |board| ==> board[i].email == ranked[i].email
    ensures forall i, j :: 0 <= i < j < |board| ==> board[i].email != board[j].email
  {
    forall i, j | 0 <= i < j < |board|
      ensures board[i].email != board[j].email
    {
      InGroups(subs, ranked[i]);
      InGroups(subs, ranked[j]);
    }
  }

  lemma BoardMeans(subs: seq<Submission>, ranked: seq<Group>, board: seq<Entry>)
    requires forall i :: 0 <= i < |ranked| ==> ranked[i] in Groups(subs) && ranked[i].average.Some?
    requires |board| == |ranked|
    requires forall i :: 0 <= i < |board| ==>
      board[i].email == ranked[i].email && board[i].averageMark == ranked[i].average.value
    ensures forall i :: 0 <= i < |board| ==> IsMeanOf(board[i].averageMark, CompletedMarks(subs, board[i].email))
  {
    forall i | 0 <= i < |board|
      ensures IsMeanOf(board[i].averageMark, CompletedMarks(subs, board[i].email))
    {
      InGroups(subs, ranked[i]);
    }
  }

  /** `board` is the join of the groups `ranked`, entry by entry. */
  predicate EntriesOf(ranked: seq<Group>, board: seq<Entry>) {
    && (forall i :: 0 <= i < |ranked| ==> ranked[i].average.Some?)
    && |board| == |ranked|
    && forall i :: 0 <= i < |board| ==>
         board[i].email == ranked[i].email && board[i].averageMark == ranked[i].average.value
  }

  /** One completed submitter is on the board, or the board is full of
      entries averaging at least as much. */
  lemma SubmitterPlaced(subs: seq<Submission>, board: seq<Entry>, k: nat)
    requires k < |subs| && IsCompleted(subs[k])
    ensures EntriesOf(Ranked(subs), board) ==> LeftOutOnlyBelow(board, subs, subs[k].userEmail)
  {
    var ranked := Ranked(subs);
    if EntriesOf(ranked, board) {
      var e := subs[k].userEmail;
      var g := GroupOf(subs, e);
      CompletedInGroups(subs, k);
      RankedKeepsTop(subs, k);
      if g in ranked {
        var i :| 0 <= i < |ranked| && ranked[i] == g;
        assert board[i].email == e;
      } else {
        forall i | 0 <= i < |board|
          ensures |CompletedMarks(subs, e)| > 0 ==> board[i].averageMark >= Mean(CompletedMarks(subs, e)).value
        {
          assert Outranks(ranked[i], g);
        }
      }
    }
  }

  lemma BoardComplete(subs: seq<Submission>, board: seq<Entry>)
    ensures EntriesOf(Ranked(subs), board) ==>
      forall k :: 0 <= k < |subs| && IsCompleted(subs[k]) ==> LeftOutOnlyBelow(board, subs, subs[k].userEmail)
  {
    forall k | 0 <= k < |subs| && IsCompleted(subs[k])
      ensures EntriesOf(Ranked(subs), board) ==> LeftOutOnlyBelow(board, subs, subs[k].userEmail)
    {
      SubmitterPlaced(subs, board, k);
    }
  }
}
