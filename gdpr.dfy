/** The GDPR service: data-export requests (checked, processed at once into a redacted
    export file) and account-deletion requests (pending, reviewed, then carried out by
    anonymising or deleting the account). */
module Gdpr {
  import opened Wrappers
  import Seqs
  import Text
  import AccountManagement

  const DayMs := 24 * 60 * 60 * 1000
  const ExportLifetimeMs := 7 * DayMs

  // ------------------------------------------------------------------ export

  datatype ExportRequest = ExportRequest(
    id: int, userId: int, status: string, requestedAt: int,
    fileUrl: Option<string>, fileExpiresAt: Option<int>, completedAt: Option<int>, errorMessage: Option<string>)

  /** A row of one of the exported tables: its owner (`sender_id` for messages), the other
      party (`friend_id` for friendships) and its creation time. */
  datatype Record = Record(id: int, userId: int, otherId: int, createdAt: int)

  /** The database as the export reads it; a profile is the user's row, column by column. */
  datatype Tables = Tables(
    profiles: map<int, map<string, string>>,
    posts: seq<Record>, comments: seq<Record>, likes: seq<Record>, messages: seq<Record>,
    friendships: seq<Record>, stories: seq<Record>, notifications: seq<Record>, savedPosts: seq<Record>)

  datatype ExportData = ExportData(
    exportedAt: int, profile: map<string, string>,
    posts: seq<Record>, comments: seq<Record>, likes: seq<Record>, messages: seq<Record>,
    friendships: seq<Record>, stories: seq<Record>, notifications: seq<Record>, savedPosts: seq<Record>)

  /** The columns removed from the exported profile. */
  const Sensitive: set<string> := {"password", "two_factor_secret", "reset_otp"}

  function Redacted(profile: map<string, string>): (p: map<string, string>)
    ensures p.Keys == profile.Keys - Sensitive
    ensures forall c :: c in p ==> p[c] == profile[c]
  {
    profile - Sensitive
  }

  /** `ORDER BY created_at DESC`. */
  function NewestFirst(): (Record, Record) -> bool {
    (a: Record, b: Record) => a.createdAt >= b.createdAt
  }

  lemma NewestFirstTotal()
    ensures Seqs.TotalPreorder(NewestFirst())
  {}

  /** The rows of `userId`, newest first. */
  function OwnedBy(rows: seq<Record>, userId: int): seq<Record> {
    Seqs.Sort(Seqs.Filter(rows, (r: Record) => r.userId == userId), NewestFirst())
  }

  /** The friendships of `userId` in either column, newest first. */
  function Involving(rows: seq<Record>, userId: int): seq<Record> {
    Seqs.Sort(Seqs.Filter(rows, (r: Record) => r.userId == userId || r.otherId == userId), NewestFirst())
  }

  /** An exported list holds exactly the user's rows, each as often as in the table, newest
      first. */
  lemma OwnedByExact(rows: seq<Record>, userId: int)
    ensures multiset(OwnedBy(rows, userId)) == multiset(Seqs.Filter(rows, (r: Record) => r.userId == userId))
    ensures forall r :: r in OwnedBy(rows, userId) <==> r in rows && r.userId == userId
    ensures Seqs.Sorted(OwnedBy(rows, userId), NewestFirst())
  {
    var mine := Seqs.Filter(rows, (r: Record) => r.userId == userId);
    Seqs.SortPermutation(mine, NewestFirst());
    NewestFirstTotal();
    Seqs.SortSorted(mine, NewestFirst());
    forall r ensures r in OwnedBy(rows, userId) <==> r in mine {
      assert r in OwnedBy(rows, userId) <==> r in multiset(OwnedBy(rows, userId));
    }
  }

  /** `collectUserData`: a missing profile makes the `delete` throw. */
  function CollectUserData(db: Tables, userId: int, now: int): (r: Option<ExportData>)
    ensures r.None? <==> userId !in db.profiles
    ensures r.Some? ==> r.value.profile == Redacted(db.profiles[userId])
  {
    if userId !in db.profiles then None
    else Some(ExportData(now, Redacted(db.profiles[userId]),
      OwnedBy(db.posts, userId), OwnedBy(db.comments, userId), OwnedBy(db.likes, userId),
      OwnedBy(db.messages, userId), Involving(db.friendships, userId), OwnedBy(db.stories, userId),
      OwnedBy(db.notifications, userId), OwnedBy(db.savedPosts, userId)))
  }

  /** No password, second-factor secret or reset code leaves in an export, and every other
      column does. */
  lemma ExportRedacted(db: Tables, userId: int, now: int)
    requires userId in db.profiles
    ensures var p := CollectUserData(db, userId, now).value.profile;
      (forall c :: c in Sensitive ==> c !in p) &&
      (forall c :: c in db.profiles[userId] && c !in Sensitive ==> c in p && p[c] == db.profiles[userId][c])
  {}

  /** The error `request.user_id` throws when no request has the id, and the one
      `delete profile.password` throws when the user is gone. */
  const NoRequestError := "Cannot read properties of undefined (reading 'user_id')"
  const MissingProfileError := "Cannot convert undefined or null to object"

  /** The rows with `id`, changed by `f`. */
  function UpdateExports(rows: seq<ExportRequest>, id: int, f: ExportRequest -> ExportRequest): (r: seq<ExportRequest>)
    ensures |r| == |rows|
    ensures forall k :: 0 <= k < |r| ==> r[k] == if rows[k].id == id then f(rows[k]) else rows[k]
  {
    seq(|rows|, k requires 0 <= k < |rows| => if rows[k].id == id then f(rows[k]) else rows[k])
  }

  function FirstExport(rows: seq<ExportRequest>, id: int): (r: Option<nat>)
    ensures r.Some? ==> r.value < |rows| && rows[r.value].id == id
    ensures r.None? <==> forall k :: 0 <= k < |rows| ==> rows[k].id != id
  {
    if rows == [] then None
    else if rows[0].id == id then Some(0)
    else match FirstExport(rows[1..], id)
      case None => None
      case Some(k) => Some(k + 1)
  }

  function ExportFileUrl(userId: int, now: int): string {
    "/exports/user_" + Text.IntToString(userId) + "_export_" + Text.IntToString(now) + ".json"
  }

  function Failed(msg: string): ExportRequest -> ExportRequest {
    (e: ExportRequest) => e.(status := "failed", errorMessage := Some(msg))
  }

  function Completed(url: string, now: int): ExportRequest -> ExportRequest {
    (e: ExportRequest) => e.(status := "completed", fileUrl := Some(url), fileExpiresAt := Some(now + ExportLifetimeMs), completedAt := Some(now))
  }

  /** `processDataExport`: processing, then collected and written into `files` and
      completed, or failed with the error. `ioError` is a failing write. */
  function ProcessExport(rows: seq<ExportRequest>, files: map<string, ExportData>, id: int, db: Tables, now: int, ioError: Option<string>)
    : (r: (seq<ExportRequest>, map<string, ExportData>, Result<(string, int), string>))
  {
    var processing := UpdateExports(rows, id, MarkProcessing());
    match FirstExport(processing, id)
    case None => (processing, files, Err(NoRequestError))
    case Some(k) =>
      var userId := processing[k].userId;
      match CollectUserData(db, userId, now)
      case None => (UpdateExports(processing, id, Failed(MissingProfileError)), files, Err(MissingProfileError))
      case Some(data) =>
        if ioError.Some? then (UpdateExports(processing, id, Failed(ioError.value)), files, Err(ioError.value))
        else
          var url := ExportFileUrl(userId, now);
          (UpdateExports(processing, id, Completed(url, now)), files[url := data], Ok((url, now + ExportLifetimeMs)))
  }

  /** Processing settles the request: it ends `completed` (returning the file, which
      expires in seven days) or `failed`, and other requests are untouched. */
  lemma ProcessExportSettles(rows: seq<ExportRequest>, files: map<string, ExportData>, id: int, db: Tables, now: int, ioError: Option<string>)
    requires exists k :: 0 <= k < |rows| && rows[k].id == id
    ensures var (after, files', out) := ProcessExport(rows, files, id, db, now, ioError);
      |after| == |rows| &&
      (forall k :: 0 <= k < |rows| && rows[k].id != id ==> after[k] == rows[k]) &&
      (forall k :: 0 <= k < |rows| && rows[k].id == id ==> after[k].status == (if out.Ok? then "completed" else "failed")) &&
      (out.Ok? ==> (out.value.1 == now + ExportLifetimeMs && out.value.0 in files' &&
        files'[out.value.0].profile.Keys !! Sensitive)) &&
      (out.Err? ==> files' == files)
  {
    var processing := UpdateExports(rows, id, MarkProcessing());
    var k :| 0 <= k < |rows| && rows[k].id == id;
    assert processing[k].id == id;
    var first := FirstExport(processing, id).value;
    var userId := processing[first].userId;
    match CollectUserData(db, userId, now)
    case None =>
      SettledRows(rows, processing, id, Failed(MissingProfileError), "failed");
    case Some(data) =>
      if ioError.Some? {
        SettledRows(rows, processing, id, Failed(ioError.value), "failed");
      } else {
        SettledRows(rows, processing, id, Completed(ExportFileUrl(userId, now), now), "completed");
      }
  }

  /** The first update of a request: it is being processed. */
  function MarkProcessing(): ExportRequest -> ExportRequest {
    (e: ExportRequest) => e.(status := "processing")
  }

  /** The second update of the rows sets the request's final status and leaves the rest. */
  lemma SettledRows(rows: seq<ExportRequest>, processing: seq<ExportRequest>, id: int, f: ExportRequest -> ExportRequest, status: string)
    requires processing == UpdateExports(rows, id, MarkProcessing())
    requires forall e :: f(e).status == status
    ensures var after := UpdateExports(processing, id, f);
      |after| == |rows| &&
      (forall k :: 0 <= k < |rows| && rows[k].id != id ==> after[k] == rows[k]) &&
      (forall k :: 0 <= k < |rows| && rows[k].id == id ==> after[k].status == status)
  {
    var after := UpdateExports(processing, id, f);
    forall k | 0 <= k < |rows| && rows[k].id == id ensures after[k].status == status {
      assert processing[k].id == id;
    }
  }

  predicate InProgress(e: ExportRequest, userId: int, now: int) {
    e.userId == userId && e.status in {"pending", "processing"} && e.requestedAt > now - DayMs
  }

  function FirstInProgress(rows: seq<ExportRequest>, userId: int, now: int): (r: Option<nat>)
    ensures r.Some? ==> r.value < |rows| && InProgress(rows[r.value], userId, now)
    ensures r.None? <==> forall k :: 0 <= k < |rows| ==> !InProgress(rows[k], userId, now)
  {
    if rows == [] then None
    else if InProgress(rows[0], userId, now) then Some(0)
    else match FirstInProgress(rows[1..], userId, now)
      case None => None
      case Some(k) => Some(k + 1)
  }

  datatype ExportReply = ExportInProgress(requestId: int) | ExportCreated(requestId: int) | ExportThrew(message: string)

  // ------------------------------------------------------------------ deletion

  datatype DeletionRequest = DeletionRequest(
    id: int, userId: int, reason: Option<string>, status: string, requestedAt: int,
    reviewedAt: Option<int>, reviewedBy: Option<int>, rejectionReason: Option<string>, completedAt: Option<int>)

  /** A deletion request still in the pipeline. */
  predicate Open(d: DeletionRequest) { d.status in {"pending", "approved"} }

  function FirstOpen(rows: seq<DeletionRequest>, userId: int): (r: Option<nat>)
    ensures r.Some? ==> r.value < |rows| && rows[r.value].userId == userId && Open(rows[r.value])
    ensures r.None? <==> forall k :: 0 <= k < |rows| ==> !(rows[k].userId == userId && Open(rows[k]))
  {
    if rows == [] then None
    else if rows[0].userId == userId && Open(rows[0]) then Some(0)
    else match FirstOpen(rows[1..], userId)
      case None => None
      case Some(k) => Some(k + 1)
  }

  /** `approveDeletionRequest`: only a pending request with the id changes. */
  function Approve(rows: seq<DeletionRequest>, id: int, reviewer: int, now: int): (r: seq<DeletionRequest>)
    ensures |r| == |rows|
    ensures forall k :: 0 <= k < |r| ==> (r[k] ==
      if rows[k].id == id && rows[k].status == "pending" then rows[k].(status := "approved", reviewedAt := Some(now), reviewedBy := Some(reviewer)) else rows[k])
  {
    seq(|rows|, k requires 0 <= k < |rows| =>
      if rows[k].id == id && rows[k].status == "pending" then rows[k].(status := "approved", reviewedAt := Some(now), reviewedBy := Some(reviewer)) else rows[k])
  }

  /** `rejectDeletionRequest`: only a pending request with the id changes. */
  function Reject(rows: seq<DeletionRequest>, id: int, reviewer: int, why: Option<string>, now: int): (r: seq<DeletionRequest>)
    ensures |r| == |rows|
    ensures forall k :: 0 <= k < |r| ==> (r[k] ==
      if rows[k].id == id && rows[k].status == "pending"
      then rows[k].(status := "rejected", reviewedAt := Some(now), reviewedBy := Some(reviewer), rejectionReason := why) else rows[k])
  {
    seq(|rows|, k requires 0 <= k < |rows| =>
      if rows[k].id == id && rows[k].status == "pending"
      then rows[k].(status := "rejected", reviewedAt := Some(now), reviewedBy := Some(reviewer), rejectionReason := why) else rows[k])
  }

  /** The final `UPDATE` of `processDeletion`, by id alone. */
  function Complete(rows: seq<DeletionRequest>, id: int, now: int): (r: seq<DeletionRequest>)
    ensures |r| == |rows|
    ensures forall k :: 0 <= k < |r| ==> r[k] == if rows[k].id == id then rows[k].(status := "completed", completedAt := Some(now)) else rows[k]
  {
    seq(|rows|, k requires 0 <= k < |rows| => if rows[k].id == id then rows[k].(status := "completed", completedAt := Some(now)) else rows[k])
  }

  function FirstApproved(rows: seq<DeletionRequest>, id: int): (r: Option<nat>)
    ensures r.Some? ==> r.value < |rows| && rows[r.value].id == id && rows[r.value].status == "approved"
    ensures r.None? <==> forall k :: 0 <= k < |rows| ==> !(rows[k].id == id && rows[k].status == "approved")
  {
    if rows == [] then None
    else if rows[0].id == id && rows[0].status == "approved" then Some(0)
    else match FirstApproved(rows[1..], id)
      case None => None
      case Some(k) => Some(k + 1)
  }

  /** The lifecycle: pending may become approved or rejected, approved may become
      completed, and nothing else moves. */
  predicate Step(a: DeletionRequest, b: DeletionRequest) {
    a == b || (a.status == "pending" && b.status in {"approved", "rejected"}) || (a.status == "approved" && b.status == "completed")
  }

  predicate Steps(before: seq<DeletionRequest>, after: seq<DeletionRequest>) {
    |before| == |after| && forall k :: 0 <= k < |before| ==> Step(before[k], after[k])
  }

  ghost predicate UniqueIds(rows: seq<DeletionRequest>) {
    forall i, j :: 0 <= i < |rows| && 0 <= j < |rows| && rows[i].id == rows[j].id ==> i == j
  }

  /** At most one open deletion request per user. */
  ghost predicate OneOpenPerUser(rows: seq<DeletionRequest>) {
    forall i, j :: 0 <= i < |rows| && 0 <= j < |rows| && Open(rows[i]) && Open(rows[j]) && rows[i].userId == rows[j].userId ==> i == j
  }

  lemma ReviewFollowsLifecycle(rows: seq<DeletionRequest>, id: int, reviewer: int, why: Option<string>, now: int)
    ensures Steps(rows, Approve(rows, id, reviewer, now)) && Steps(rows, Reject(rows, id, reviewer, why, now))
    ensures OneOpenPerUser(rows) ==> OneOpenPerUser(Approve(rows, id, reviewer, now)) && OneOpenPerUser(Reject(rows, id, reviewer, why, now))
  {
    var a := Approve(rows, id, reviewer, now);
    var r := Reject(rows, id, reviewer, why, now);
    assert forall k :: 0 <= k < |rows| ==> (Open(a[k]) <==> Open(rows[k])) && a[k].userId == rows[k].userId;
    assert forall k :: 0 <= k < |rows| ==> (Open(r[k]) ==> Open(rows[k])) && r[k].userId == rows[k].userId;
  }

  /** Completing an approved request with a unique id follows the lifecycle and closes it. */
  lemma CompleteFollowsLifecycle(rows: seq<DeletionRequest>, id: int, now: int)
    requires UniqueIds(rows) && FirstApproved(rows, id).Some?
    ensures Steps(rows, Complete(rows, id, now))
    ensures OneOpenPerUser(rows) ==> OneOpenPerUser(Complete(rows, id, now))
    ensures !Open(Complete(rows, id, now)[FirstApproved(rows, id).value])
  {
    var c := Complete(rows, id, now);
    var f := FirstApproved(rows, id).value;
    forall k | 0 <= k < |rows| ensures Step(rows[k], c[k]) {
      if rows[k].id == id { assert k == f; }
    }
    assert forall k :: 0 <= k < |rows| ==> (Open(c[k]) ==> Open(rows[k])) && c[k].userId == rows[k].userId;
  }

  /** A new request is created only when the user has none open, which keeps one open
      request per user. */
  lemma RequestKeepsOneOpen(rows: seq<DeletionRequest>, d: DeletionRequest)
    requires OneOpenPerUser(rows) && FirstOpen(rows, d.userId).None?
    ensures OneOpenPerUser(rows + [d])
  {}

  datatype DeletionReply = DeletionExists(requestId: int) | DeletionSubmitted(requestId: int)

  /** The two request tables, the export files and the accounts they act on. */
  class GdprStore {
    var exports: seq<ExportRequest>
    var nextExportId: int
    var files: map<string, ExportData>
    var deletions: seq<DeletionRequest>
    var nextDeletionId: int
    const accounts: AccountManagement.AccountStore

    constructor (accounts: AccountManagement.AccountStore)
      ensures this.accounts == accounts && exports == [] && files == map[] && deletions == []
      ensures nextExportId == 1 && nextDeletionId == 1
    {
      this.accounts := accounts;
      exports := [];
      nextExportId := 1;
      files := map[];
      deletions := [];
      nextDeletionId := 1;
    }

    method ProcessDataExport(id: int, db: Tables, now: int, ioError: Option<string>) returns (r: Result<(string, int), string>)
      modifies this
      ensures (exports, files, r) == ProcessExport(old(exports), old(files), id, db, now, ioError)
      ensures deletions == old(deletions) && nextExportId == old(nextExportId) && nextDeletionId == old(nextDeletionId)
    {
      exports := UpdateExports(exports, id, MarkProcessing());
      var found := FirstExport(exports, id);
      if found.None? {
        return Err(NoRequestError);
      }
      var userId := exports[found.value].userId;
      var data := CollectUserData(db, userId, now);
      if data.None? {
        exports := UpdateExports(exports, id, Failed(MissingProfileError));
        return Err(MissingProfileError);
      }
      if ioError.Some? {
        exports := UpdateExports(exports, id, Failed(ioError.value));
        return Err(ioError.value);
      }
      var url := ExportFileUrl(userId, now);
      files := files[url := data.value];
      exports := UpdateExports(exports, id, Completed(url, now));
      r := Ok((url, now + ExportLifetimeMs));
    }

    /** `requestDataExport`: refused while an export of the last day is in progress,
        otherwise created pending and processed at once. */
    method RequestDataExport(userId: int, db: Tables, now: int, ioError: Option<string>) returns (reply: ExportReply)
      modifies this
      ensures deletions == old(deletions) && nextDeletionId == old(nextDeletionId)
      ensures FirstInProgress(old(exports), userId, now).Some? ==>
        reply == ExportInProgress(old(exports)[FirstInProgress(old(exports), userId, now).value].id) &&
        exports == old(exports) && files == old(files) && nextExportId == old(nextExportId)
      ensures FirstInProgress(old(exports), userId, now).None? ==>
        var created := old(exports) + [ExportRequest(old(nextExportId), userId, "pending", now, None, None, None, None)];
        var (after, files', out) := ProcessExport(created, old(files), old(nextExportId), db, now, ioError);
        exports == after && files == files' && nextExportId == old(nextExportId) + 1 &&
        reply == if out.Ok? then ExportCreated(old(nextExportId)) else ExportThrew(out.error)
    {
      var running := FirstInProgress(exports, userId, now);
      if running.Some? {
        return ExportInProgress(exports[running.value].id);
      }
      var id := nextExportId;
      exports := exports + [ExportRequest(id, userId, "pending", now, None, None, None, None)];
      nextExportId := nextExportId + 1;
      var out := ProcessDataExport(id, db, now, ioError);
      reply := if out.Ok? then ExportCreated(id) else ExportThrew(out.error);
    }

    method RequestDataDeletion(userId: int, reason: Option<string>, now: int) returns (reply: DeletionReply)
      modifies this
      ensures exports == old(exports) && files == old(files) && nextExportId == old(nextExportId)
      ensures FirstOpen(old(deletions), userId).Some? ==>
        reply == DeletionExists(old(deletions)[FirstOpen(old(deletions), userId).value].id) &&
        deletions == old(deletions) && nextDeletionId == old(nextDeletionId)
      ensures FirstOpen(old(deletions), userId).None? ==>
        reply == DeletionSubmitted(old(nextDeletionId)) && nextDeletionId == old(nextDeletionId) + 1 &&
        deletions == old(deletions) + [DeletionRequest(old(nextDeletionId), userId, reason, "pending", now, None, None, None, None)]
    {
      var open := FirstOpen(deletions, userId);
      if open.Some? {
        return DeletionExists(deletions[open.value].id);
      }
      deletions := deletions + [DeletionRequest(nextDeletionId, userId, reason, "pending", now, None, None, None, None)];
      reply := DeletionSubmitted(nextDeletionId);
      nextDeletionId := nextDeletionId + 1;
    }

    method ApproveDeletionRequest(id: int, reviewer: int, now: int)
      modifies this
      ensures deletions == Approve(old(deletions), id, reviewer, now)
      ensures exports == old(exports) && files == old(files) && nextExportId == old(nextExportId) && nextDeletionId == old(nextDeletionId)
    {
      deletions := Approve(deletions, id, reviewer, now);
    }

    method RejectDeletionRequest(id: int, reviewer: int, why: Option<string>, now: int)
      modifies this
      ensures deletions == Reject(old(deletions), id, reviewer, why, now)
      ensures exports == old(exports) && files == old(files) && nextExportId == old(nextExportId) && nextDeletionId == old(nextDeletionId)
    {
      deletions := Reject(deletions, id, reviewer, why, now);
    }

    /** `processDeletion`: only an approved request is carried out, by anonymising the
        account (`method` "anonymize", the default) or deleting it. */
    method ProcessDeletion(id: int, method_: string, now: int) returns (r: Result<string, string>)
      modifies this, accounts
      ensures exports == old(exports) && files == old(files) && nextExportId == old(nextExportId) && nextDeletionId == old(nextDeletionId)
      ensures FirstApproved(old(deletions), id).None? ==>
        r == Err("Request not found or not approved") && deletions == old(deletions) && unchanged(accounts)
      ensures FirstApproved(old(deletions), id).Some? ==>
        var userId := old(deletions)[FirstApproved(old(deletions), id).value].userId;
        deletions == Complete(old(deletions), id, now) &&
        (method_ == "anonymize" ==> (r == Ok("Account anonymized successfully") &&
          accounts.users == (if userId in old(accounts.users) then old(accounts.users)[userId := AccountManagement.Anonymized(old(accounts.users)[userId], userId, now)] else old(accounts.users)) &&
          accounts.messages == AccountManagement.WithoutMessagesFrom(old(accounts.messages), userId) &&
          accounts.notifications == AccountManagement.WithoutNotificationsOf(old(accounts.notifications), userId) &&
          accounts.stories == AccountManagement.WithoutStoriesOf(old(accounts.stories), userId) &&
          accounts.posts == AccountManagement.Scrubbed(old(accounts.posts), userId, AccountManagement.PostRemoved) &&
          accounts.comments == AccountManagement.Scrubbed(old(accounts.comments), userId, AccountManagement.CommentRemoved))) &&
        (method_ != "anonymize" ==> (r == Ok("Account deleted successfully") && accounts.users == old(accounts.users) - {userId} &&
          accounts.messages == old(accounts.messages) && accounts.notifications == old(accounts.notifications) &&
          accounts.stories == old(accounts.stories) && accounts.posts == old(accounts.posts) && accounts.comments == old(accounts.comments)))
    {
      var found := FirstApproved(deletions, id);
      if found.None? {
        return Err("Request not found or not approved");
      }
      var userId := deletions[found.value].userId;
      if method_ == "anonymize" {
        accounts.AnonymizeAccount(userId, now);
        r := Ok("Account anonymized successfully");
      } else {
        accounts.HardDeleteAccount(userId);
        r := Ok("Account deleted successfully");
      }
      deletions := Complete(deletions, id, now);
    }
  }
}
