# Study Sphere server: submission lifecycle, progress ledger and leaderboard

This project is a Dafny model of the request handlers in `index.js` of the study-sphere
server. That server is an Express application over three MongoDB collections: users,
assignments and submitted assignments. The model covers:

- user registration;
- creating, fetching, updating and deleting an assignment;
- submitting an assignment and grading a submission;
- the two submission listings ("my submissions" and "pending");
- the leaderboard aggregation and its join with user names and photos;
- the per-user progress counters. Creating an assignment raises `created` and submitting
  raises `submitted`, both with `$inc`. `marked` is stored but no handler changes it.

The three collections form one immutable `Store`: a sequence per collection, plus a
`nextId` counter that stands in for MongoDB's ObjectId allocation. Each handler is a pure
function from a store to a new store and the handler's answer. `findOne`, `updateOne` and
`deleteOne` act on the first document that matches (`Seqs.FirstIndex`). `Documents.Valid`
says that emails are unique and that ids are unique and below `nextId`. Every handler
preserves it.

An assignment's fields are a map from names to JSON-like values. The `$set` of an update is
a map union, and the creator is whatever the `creatorEmail` field holds. Fetching a user
when the leaderboard joins it is `findOne({email})`. `receivedMark` is optional. A
submission has no received mark until it is graded, and MongoDB's `$avg` skips missing
values.

Modules, in dependency order:

- `Wrappers`: the `Option` and `Result` types.
- `Seqs`: first-match search and removal; counting and filtering; sum, minimum,
  maximum and mean; duplicate removal.
- `Sorting`: a stable descending insertion sort on keys where a missing value ranks last,
  plus `$limit`.
- `Documents`: the documents and the store.
- `Users`, `Assignments`, `Submissions`, `Leaderboard`: the handlers.
- `Ledger`: how the counters relate to the collections.
- `Server`: every state-changing request as one transition, and what holds over any
  sequence of them.

Behaviour of the code that the model keeps, although a progress ledger would be expected
to behave otherwise:

- POST /submissions stores the `status` the client sends (`index.js:221`, `index.js:233`).
  A new submission is not forced to "pending".
- Grading never raises the submitter's `marked` counter (`index.js:251-272`), not even on
  the first grade. As a result `marked` stays 0 forever: `Server.RunCountersGrow` proves
  that it never changes.
- The counters `created` and `submitted` are meant to equal the number of assignments
  created and submissions made by the user (`Ledger.Consistent`). The handlers keep that
  equality over any run of creates, submits, grades, and updates that leave `creatorEmail`
  alone (`Server.RunKeepsConsistent`). Three other requests break it, so that lemma
  excludes them:
  - A delete leaves the creator's `created` as it was (`Ledger.DeleteLeavesCreatedCount`).
  - An update whose patch rewrites `creatorEmail` moves the assignment to another user
    without moving the count (`Ledger.UpdateMovesCreator`).
  - A submission made before its author registers is never counted. The later
    registration starts `submitted` at 0 (`Ledger.LateRegisterBreaksLedger`).
- A submission created with status "completed" carries no received mark. If that user
  has no graded submission either, their leaderboard group averages to null. A null
  average sorts last, and `toFixed` on it throws. The leaderboard therefore answers with a
  server error exactly when such a user exists and fewer than 20 users have a numeric
  average (`Leaderboard.ComputeLeaderboard` returns `Err(NullAverage)`).

## Model

| member | source | states |
|---|---|---|
| `Users.RegisterUser` | index.js:197-213 | If the email is already registered, nothing changes and the answer is "already exists". Otherwise a user with that email, name and photo and all-zero progress is appended, and nothing else changes. Either way the email is registered afterwards and the store stays valid. |
| `Users.RegisterTwice` | index.js:200-203 | Registering the same email a second time is refused and leaves the store as it was. |
| `Users.Increment` | index.js:237-240 | `updateOne({email}, {$inc: ...})` raises exactly one counter of the first user with that email by one. Every other user and field is untouched. With no such user, nothing changes. Unique emails stay unique. |
| `Users.IncrementOpt` | index.js:179-182 | The creator-counter update when the body may lack `creatorEmail`: no email matches no user, and the users stay as they were. |
| `Users.CounterBumpedUnique` | index.js:179-182 | With unique emails, the increment raises the counter of every user with that email and leaves all other users unchanged. |
| `Assignments.FindAssignment` | index.js:171-176 | Returns an assignment held in the store with the requested id. Returns none exactly when no stored assignment has that id. |
| `Assignments.CreateAssignment` | index.js:177-186 | The body is appended as an assignment under a fresh id, and the id is returned. The user named by `creatorEmail` (if any) gets `created` raised by one. Submissions are untouched, and validity is preserved. |
| `Assignments.Merge` | index.js:276-279 | The `$set` merge: the keys are the union of both key sets, patched keys take the patch's value, and all other keys keep theirs. |
| `Assignments.UpdateAssignment` | index.js:273-281 | An unknown id gives matched 0 and modified 0, and nothing changes. Otherwise only the assignment with that id changes: it becomes the merge of its fields with the patch, matched is 1, and modified is 1 exactly when something changed. Validity is preserved. |
| `Assignments.UpdateIdempotent` | index.js:273-281 | Applying the same update twice has the effect of applying it once. |
| `Assignments.DeleteAssignment` | index.js:286-295 | An unknown id answers "not found" and changes nothing. Otherwise exactly one assignment is removed: every other assignment remains, and no assignment appears that was not there. Users and submissions are untouched, and validity is preserved. |
| `Assignments.DeleteThenFind` | index.js:286-295 | After a delete, fetching the same id finds nothing. |
| `Submissions.Submit` | index.js:214-248 | A submission carrying exactly the request's fields is appended. It has a fresh id, `submittedAt` set to the current time, and no mark, feedback or marking time. Earlier submissions and the assignments are unchanged. The submitter's `submitted` counter rises by one if the submitter is registered. Validity is preserved. |
| `Submissions.Grade` | index.js:251-272 | An unknown id gives matched 0 and changes nothing. Otherwise only the submission with that id changes: status becomes "completed"; mark, feedback and marking time are set; every other field is kept; matched is 1, and modified is 1 exactly when something changed. No counter is touched, and validity is preserved. |
| `Submissions.RegradeOverwrites` | index.js:251-272 | Grading twice leaves the same store as grading once with the second mark, feedback and time. |
| `Submissions.NewestFirst` | index.js:142 | The `.sort({submittedAt: -1})` is a permutation of its input, newest first. |
| `Submissions.MySubmissions` | index.js:136-149 | The caller's submissions and no others, as many entries as the caller has submissions, newest first. |
| `Submissions.PendingSubmissions` | index.js:150-170 | The submissions whose status is "pending" and no others, as many entries as there are pending submissions, newest first. |
| `Submissions.SubmitGradeList` | index.js:214-272 | After a submit and then a grade of the new id, the submitter's listing shows that submission as completed, with the given mark and marking time. |
| `Leaderboard.CompletedMarks` | index.js:80-84 | The marks averaged for one user: as many as that user has completed submissions with a numeric mark. |
| `Leaderboard.CompletedMarksExact` | index.js:80-84 | Every numeric mark of the user's completed submissions is averaged, as many times as it was received, and nothing else is. |
| `Leaderboard.CompletedEmails` | index.js:80-83 | The emails of exactly the users with a completed submission. |
| `Leaderboard.Groups` | index.js:80-86 | `$match` plus `$group`: groups with distinct emails, one for each user with a completed submission and none for anyone else, each holding the `$avg` of that user's marks. |
| `Leaderboard.Ranked` | index.js:87-88 | `$sort` descending plus `$limit`: at most 20 distinct groups drawn from the aggregation, in non-increasing order of average, with a null average last. |
| `Leaderboard.RankedKeepsTop` | index.js:87-88 | The group of a user with a completed submission is dropped by the limit only when 20 groups were kept and each of them ranks at least as high. |
| `Leaderboard.InGroups` | index.js:80-86 | Every group is the average of its user's marks, and that user has a completed submission. |
| `Leaderboard.CompletedInGroups` | index.js:80-86 | Every user with a completed submission forms a group. |
| `Leaderboard.Entries` | index.js:92-106 | One entry per kept group, in the same order and with the same email and average. Each entry shows the name and photo of the user with that email, or none if no user has it. |
| `Leaderboard.ComputeLeaderboard` | index.js:76-113 | On success: at most 20 entries; averages non-increasing; emails distinct; each average is the mean of that user's numeric marks (n times it is their sum, and it lies between their minimum and maximum); each entry shows its user's name and photo. A user with a completed submission is missing only if the board is full of users averaging at least as much. It fails exactly when some user with a completed submission has no numeric mark and fewer than 20 distinct users have one. |
| `Leaderboard.NullAverageWitness` | index.js:84-103 | A null average among the kept groups comes from a user whose completed submissions carry no numeric mark. |
| `Leaderboard.MarkedInGroups` | index.js:80-86 | A user with a numeric mark forms a group, and its average is a number. |
| `Leaderboard.NullsAfterNumbers` | index.js:87 | In the descending sort, any n distinct groups with numeric averages all come before the first null one. |
| `Leaderboard.FullBoardHasNoNull` | index.js:87-88 | When 20 distinct users have numeric marks, no null average survives the limit. |
| `Leaderboard.CutMeansFull` | index.js:88 | A null group is dropped by the limit only when 20 groups are kept. |
| `Leaderboard.UnmarkedCutOnlyByFullBoard` | index.js:84-88 | If a user has no numeric mark and no null average is kept, then 20 distinct users have numeric marks. |
| `Leaderboard.FailsExactly` | index.js:84-103 | A null average reaches `toFixed` exactly when some user with a completed submission has no numeric mark and fewer than 20 users have one. |
| `Leaderboard.SubmitterPlaced` | index.js:87-106 | A user with a completed submission appears on the board, or the board is full of users averaging at least as much. |
| `Leaderboard.BoardComplete` | index.js:87-106 | The board leaves out a user with a completed submission only when it is full of users averaging at least as much. |
| `Seqs.Mean` | index.js:84 | `$avg`: none for no values. Otherwise a value that, taken n times, gives the sum, and that lies between the minimum and the maximum. |
| `Seqs.FirstIndex` | index.js:200 | First-match lookup: no index exactly when nothing matches; otherwise the index of a match with no match before it. |
| `Seqs.Filter` | index.js:141 | `find(filter)` keeps every matching document and nothing else. It keeps as many as there are matches, and never more copies than the input has. |
| `Sorting.SortDesc` | index.js:87 | The descending sort is a permutation of its input, in non-increasing key order. It keeps the same length and keeps distinct elements distinct. |
| `Sorting.SortDescSameElements` | index.js:87 | Sorting keeps exactly the elements it was given: a value is in the output exactly when it is in the input. |
| `Sorting.TakeSortedKeepsTop` | index.js:88 | `$limit` after a descending sort drops an element only when the kept prefix is full and every kept element ranks at least as high. |
| `Ledger.CreateKeepsConsistent` | index.js:177-186 | If every user's `created` equals the number of assignments naming them as creator, and `submitted` equals the number of their submissions, a create keeps both equalities. |
| `Ledger.SubmitKeepsConsistent` | index.js:214-248 | A submit keeps both equalities. |
| `Ledger.GradeKeepsConsistent` | index.js:251-272 | A grade keeps both equalities. |
| `Ledger.RegisterKeepsConsistent` | index.js:205-210 | Registering an email that owns no assignments or submissions keeps both equalities, because it starts at zero. |
| `Ledger.UpdateKeepsConsistent` | index.js:273-281 | An update whose patch leaves `creatorEmail` alone keeps both equalities. |
| `Ledger.UpdateMovesCreator` | index.js:273-281 | From a consistent store where one user created the only assignment, a patch that rewrites `creatorEmail` to a second user leaves the first user's `created` at 1 with no assignment, and the second user's at 0 with one. |
| `Ledger.LateRegisterBreaksLedger` | index.js:205-240 | A submission, then registration of its author: the new user's `submitted` is 0 while one submission by them exists. |
| `Ledger.DeleteLeavesCreatedCount` | index.js:286-295 | From a consistent store with one user and one assignment by them, a delete leaves `created` at 1 with no assignment left: delete does not keep the ledger. |
| `Server.StepCountersGrow` | index.js:177-295 | No request removes a user or changes an email, lowers `created` or `submitted`, or changes `marked`. |
| `Server.RunCountersGrow` | index.js:177-295 | Over any sequence of requests, every user stays with the same email, `created` and `submitted` never go down, and `marked` never changes. |
| `Server.RunKeepsValid` | index.js:177-295 | Any sequence of requests keeps emails unique and ids unique and fresh. |
| `Server.RunKeepsConsistent` | index.js:177-281 | From a consistent store, any sequence of creates, submits, grades and updates that leave `creatorEmail` alone keeps every user's `created` and `submitted` equal to the number of assignments and submissions that user owns. |

## Left out

- Title search (`$regex` with option "i") in GET /pending-assignments and GET /assignments: case-insensitive regular-expression matching is not modelled. The pending listing is modelled without a search term.
- `Number(averageMark.toFixed(2))`: entries carry the exact mean as a real. Rounding to two decimals is floating-point behaviour and is not modelled.
- `$toDouble`: marks are integers in the model. Coercing strings or other types to doubles, and the error it raises on a non-numeric string, is not modelled.
- `new ObjectId(id)`: ids are natural numbers. A malformed id string, which makes the driver throw, is not modelled.
- Firebase token verification (`verifyFirebaseToken`), CORS, routing, environment configuration and the connection setup are outside the core. The caller's email is a parameter.
- Concurrency: the handlers' separate `await`s (the counter `$inc` and the insert are not one transaction) and the parallel `findOne` calls of the leaderboard join run as one atomic step each. A failure between the two writes is not modelled.
- GET /all-users, GET /my-progress, GET /assignments (the list) and GET /my-assignments read collections without changing them. They are not modelled.
- Request bodies whose email fields are missing or not strings are not modelled. The exception is the assignment's `creatorEmail`, which may be absent, and then no user matches. A Mongo query `{email: undefined}` that matches documents without an email is not modelled either.
- A client-supplied `_id` in an assignment body and dotted keys in `$set` are not modelled.
- `Leaderboard.Entries`: user names and photos are strings in the model, and the join that `Leaderboard.ComputeLeaderboard` also states rests on that. A registration body without `displayName` or `photoURL` stores null, and the source's entry for that user then shows a null name or photo although the user exists. The model promises that an entry's name is absent exactly when no user has the email, which holds only for users registered with both fields.
- A client-supplied `receivedMark` that is not a number is not modelled: grading takes an integer mark.
- `Sorting.SortDesc`: the order among groups or submissions with equal keys is a model choice (insertion order is kept). MongoDB does not promise one, so no contract mentions it.
- `Leaderboard.ComputeLeaderboard`: the server error from `toFixed` on a null average is returned as `Err(NullAverage)`. The Express answer it produces (status 500 with a message) is not modelled.
