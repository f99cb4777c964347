/** The friendship service over the `friendships` table: a request is a `pending` row
    from sender to receiver, accepting turns it `accepted`, and rejecting, cancelling and
    unfriending delete rows. */
module Friendship {
  import opened Wrappers
  import Seqs

  datatype Row = Row(id: int, userId: int, friendId: int, status: string, createdAt: int, updatedAt: Option<int>)

  /** A row relating `a` and `b`, in either direction. */
  predicate Between(f: Row, a: int, b: int) {
    (f.userId == a && f.friendId == b) || (f.userId == b && f.friendId == a)
  }

  /** A pending request from `from` to `to`. */
  predicate IsRequest(f: Row, from: int, to: int) {
    f.userId == from && f.friendId == to && f.status == "pending"
  }

  /** The statuses the service writes or reads. */
  ghost predicate KnownStatuses(rows: seq<Row>) {
    forall x :: x in rows ==> x.status in {"pending", "accepted", "blocked"}
  }

  /** At most one row relates any two users. */
  ghost predicate OneRowPerPair(rows: seq<Row>) {
    forall x, y :: x in rows && y in rows && Between(y, x.userId, x.friendId) ==> x == y
  }

  ghost predicate Valid(rows: seq<Row>) { KnownStatuses(rows) && OneRowPerPair(rows) }

  /** The first row between two users (`recordset[0]`). */
  function FirstBetween(rows: seq<Row>, a: int, b: int): (r: Option<nat>)
    ensures r.Some? ==> r.value < |rows| && Between(rows[r.value], a, b)
    ensures r.Some? ==> forall k :: 0 <= k < r.value ==> !Between(rows[k], a, b)
    ensures r.None? <==> forall k :: 0 <= k < |rows| ==> !Between(rows[k], a, b)
  {
    if rows == [] then None
    else if Between(rows[0], a, b) then Some(0)
    else match FirstBetween(rows[1..], a, b)
      case None => None
      case Some(k) => Some(k + 1)
  }

  /** The first row from `from` to `to`, whatever its status (`SELECT TOP 1`). */
  function FirstDirected(rows: seq<Row>, from: int, to: int): (r: Option<nat>)
    ensures r.Some? ==> r.value < |rows| && rows[r.value].userId == from && rows[r.value].friendId == to
    ensures r.None? <==> forall k :: 0 <= k < |rows| ==> !(rows[k].userId == from && rows[k].friendId == to)
  {
    if rows == [] then None
    else if rows[0].userId == from && rows[0].friendId == to then Some(0)
    else match FirstDirected(rows[1..], from, to)
      case None => None
      case Some(k) => Some(k + 1)
  }

  /** The refusal of `sendFriendRequest`, judged on the first related row only. */
  function SendRefusal(rows: seq<Row>, userId: int, friendId: int): (r: Option<string>)
    ensures FirstBetween(rows, userId, friendId).None? ==> r.None?
    ensures r.Some? ==> r.value in {"Đã là bạn bè", "Lời mời đã tồn tại", "Không thể gửi lời mời"}
  {
    match FirstBetween(rows, userId, friendId)
    case None => None
    case Some(k) =>
      if rows[k].status == "accepted" then Some("Đã là bạn bè")
      else if rows[k].status == "pending" then Some("Lời mời đã tồn tại")
      else if rows[k].status == "blocked" then Some("Không thể gửi lời mời")
      else None
  }

  /** With only the statuses the service knows, a request is refused exactly when the two
      users are already related in either direction. */
  lemma SendRefusedIffRelated(rows: seq<Row>, userId: int, friendId: int)
    requires KnownStatuses(rows)
    ensures SendRefusal(rows, userId, friendId).Some? <==> exists k :: 0 <= k < |rows| && Between(rows[k], userId, friendId)
  {
    var first := FirstBetween(rows, userId, friendId);
    if first.Some? {
      assert rows[first.value] in rows;
    }
  }

  /** The `UPDATE` of `acceptFriendRequest`: every pending request from `friendId` to
      `userId` becomes accepted. */
  function AcceptPending(rows: seq<Row>, userId: int, friendId: int, now: int): (r: seq<Row>)
    ensures |r| == |rows|
    ensures forall k :: 0 <= k < |r| ==>
      r[k] == if IsRequest(rows[k], friendId, userId) then rows[k].(status := "accepted", updatedAt := Some(now)) else rows[k]
  {
    seq(|rows|, k requires 0 <= k < |rows| =>
      if IsRequest(rows[k], friendId, userId) then rows[k].(status := "accepted", updatedAt := Some(now)) else rows[k])
  }

  /** The `DELETE` of `rejectFriendRequest` and `cancelFriendRequest`. */
  function DeleteRequests(rows: seq<Row>, from: int, to: int): (r: seq<Row>)
    ensures forall x :: x in r <==> x in rows && !IsRequest(x, from, to)
  {
    Seqs.Filter(rows, (x: Row) => !IsRequest(x, from, to))
  }

  /** The `DELETE` of `unfriend`: accepted rows in either direction. */
  function DeleteFriendship(rows: seq<Row>, a: int, b: int): (r: seq<Row>)
    ensures forall x :: x in r <==> x in rows && !(Between(x, a, b) && x.status == "accepted")
  {
    Seqs.Filter(rows, (x: Row) => !(Between(x, a, b) && x.status == "accepted"))
  }

  /** What `getFriendshipStatus` reports; `NoRelation` carries `canSendRequest` and
      `Unrecognised` is a row whose status is none of the three. */
  datatype FriendStatus = NoRelation | Friends | Blocked | PendingSent | PendingReceived | Unrecognised

  function StatusOf(rows: seq<Row>, userId: int, friendId: int): (s: FriendStatus)
    ensures s == NoRelation <==> forall k :: 0 <= k < |rows| ==> !Between(rows[k], userId, friendId)
    ensures s == PendingSent ==> exists k :: 0 <= k < |rows| && IsRequest(rows[k], userId, friendId)
    ensures s == PendingReceived && userId != friendId ==> exists k :: 0 <= k < |rows| && IsRequest(rows[k], friendId, userId)
  {
    match FirstBetween(rows, userId, friendId)
    case None => NoRelation
    case Some(k) =>
      if rows[k].status == "accepted" then Friends
      else if rows[k].status == "blocked" then Blocked
      else if rows[k].status == "pending" then (if rows[k].userId == userId then PendingSent else PendingReceived)
      else Unrecognised
  }

  /** The two users agree on their relation; a request one sent is one the other
      received. */
  lemma {:induction false} StatusSymmetric(rows: seq<Row>, a: int, b: int)
    requires a != b
    ensures StatusOf(rows, a, b) == PendingSent <==> StatusOf(rows, b, a) == PendingReceived
    ensures StatusOf(rows, a, b) == Friends <==> StatusOf(rows, b, a) == Friends
    ensures StatusOf(rows, a, b) == NoRelation <==> StatusOf(rows, b, a) == NoRelation
  {
    FirstBetweenSymmetric(rows, a, b);
  }

  lemma {:induction false} FirstBetweenSymmetric(rows: seq<Row>, a: int, b: int)
    ensures FirstBetween(rows, a, b) == FirstBetween(rows, b, a)
  {
    if rows != [] && !Between(rows[0], a, b) {
      FirstBetweenSymmetric(rows[1..], a, b);
    }
  }

  /** The row `sendFriendRequest` inserts. */
  function NewRequest(id: int, userId: int, friendId: int, now: int): Row {
    Row(id, userId, friendId, "pending", now, None)
  }

  /** Sending keeps the invariant: the row is inserted only when nothing relates the two. */
  lemma SendKeepsValid(rows: seq<Row>, id: int, userId: int, friendId: int, now: int)
    requires Valid(rows) && SendRefusal(rows, userId, friendId).None?
    ensures Valid(rows + [NewRequest(id, userId, friendId, now)])
  {
    SendRefusedIffRelated(rows, userId, friendId);
    var n := NewRequest(id, userId, friendId, now);
    var after := rows + [n];
    forall x | x in rows ensures !Between(x, userId, friendId) {
      var k :| 0 <= k < |rows| && rows[k] == x;
    }
    assert forall x :: x in after && x != n ==> x in rows;
  }

  lemma AcceptKeepsValid(rows: seq<Row>, userId: int, friendId: int, now: int)
    requires Valid(rows)
    ensures Valid(AcceptPending(rows, userId, friendId, now))
  {
    var after := AcceptPending(rows, userId, friendId, now);
    forall x, y | x in after && y in after && Between(y, x.userId, x.friendId) ensures x == y {
      var i :| 0 <= i < |after| && after[i] == x;
      var j :| 0 <= j < |after| && after[j] == y;
      assert rows[i] in rows && rows[j] in rows;
      assert Between(rows[j], rows[i].userId, rows[i].friendId);
    }
    forall x | x in after ensures x.status in {"pending", "accepted", "blocked"} {
      var i :| 0 <= i < |after| && after[i] == x;
      assert rows[i] in rows;
    }
  }

  /** Deleting rows keeps the invariant. */
  lemma SubsetKeepsValid(rows: seq<Row>, sub: seq<Row>)
    requires Valid(rows) && forall x :: x in sub ==> x in rows
    ensures Valid(sub)
  {}

  /** A request withdrawn by its sender (`cancelFriendRequest`) or refused by its
      receiver (`rejectFriendRequest`) leaves the table as it was before it was sent. */
  lemma RequestWithdrawn(rows: seq<Row>, id: int, userId: int, friendId: int, now: int)
    requires KnownStatuses(rows) && SendRefusal(rows, userId, friendId).None?
    ensures DeleteRequests(rows + [NewRequest(id, userId, friendId, now)], userId, friendId) == rows
  {
    SendRefusedIffRelated(rows, userId, friendId);
    var keep := (x: Row) => !IsRequest(x, userId, friendId);
    Seqs.FilterAppend(rows, [NewRequest(id, userId, friendId, now)], keep);
    Seqs.FilterAll(rows, keep);
    Seqs.FilterNone([NewRequest(id, userId, friendId, now)], keep);
  }

  /** Once a pending request is accepted both users see each other as friends. */
  lemma AcceptMakesFriends(rows: seq<Row>, userId: int, friendId: int, now: int)
    requires Valid(rows) && userId != friendId
    requires exists k :: 0 <= k < |rows| && IsRequest(rows[k], friendId, userId)
    ensures StatusOf(AcceptPending(rows, userId, friendId, now), userId, friendId) == Friends
    ensures StatusOf(AcceptPending(rows, userId, friendId, now), friendId, userId) == Friends
  {
    var after := AcceptPending(rows, userId, friendId, now);
    var k :| 0 <= k < |rows| && IsRequest(rows[k], friendId, userId);
    assert Between(after[k], userId, friendId);
    var first := FirstBetween(after, userId, friendId);
    var f := first.value;
    assert rows[f] in rows && rows[k] in rows;
    assert Between(rows[f], rows[k].userId, rows[k].friendId);
    assert after[f].status == "accepted";
    StatusSymmetric(after, userId, friendId);
  }

  /** After `unfriend` no accepted row relates the two users, and with one row per pair
      they are no longer related at all. */
  lemma UnfriendSeparates(rows: seq<Row>, a: int, b: int)
    requires Valid(rows) && StatusOf(rows, a, b) == Friends
    ensures StatusOf(DeleteFriendship(rows, a, b), a, b) == NoRelation
  {
    var after := DeleteFriendship(rows, a, b);
    var k := FirstBetween(rows, a, b).value;
    assert rows[k] in rows;
    forall j | 0 <= j < |after| ensures !Between(after[j], a, b) {
      assert after[j] in rows;
      if Between(after[j], a, b) {
        assert Between(after[j], rows[k].userId, rows[k].friendId);
      }
    }
  }

  /** The `friendships` table with the service's operations. */
  class FriendshipStore {
    var rows: seq<Row>
    var nextId: int

    constructor ()
      ensures rows == [] && nextId == 1
    {
      rows := [];
      nextId := 1;
    }

    method SendFriendRequest(userId: int, friendId: int, now: int) returns (r: Result<Row, string>)
      modifies this
      ensures SendRefusal(old(rows), userId, friendId).Some? ==>
        r == Err(SendRefusal(old(rows), userId, friendId).value) && rows == old(rows) && nextId == old(nextId)
      ensures SendRefusal(old(rows), userId, friendId).None? ==>
        r == Ok(NewRequest(old(nextId), userId, friendId, now)) &&
        rows == old(rows) + [NewRequest(old(nextId), userId, friendId, now)] && nextId == old(nextId) + 1
    {
      var refusal := SendRefusal(rows, userId, friendId);
      if refusal.Some? {
        return Err(refusal.value);
      }
      var row := NewRequest(nextId, userId, friendId, now);
      rows := rows + [row];
      nextId := nextId + 1;
      r := Ok(row);
    }

    /** Accepts every pending request from `friendId`, then reads back the first row in
        that direction, whatever its status. */
    method AcceptFriendRequest(userId: int, friendId: int, now: int) returns (r: Result<Row, string>)
      modifies this
      ensures nextId == old(nextId) && rows == AcceptPending(old(rows), userId, friendId, now)
      ensures r.Err? <==> forall k :: 0 <= k < |old(rows)| ==> !(old(rows)[k].userId == friendId && old(rows)[k].friendId == userId)
      ensures r.Err? ==> r.error == "Không tìm thấy lời mời kết bạn"
      ensures r.Ok? ==> r.value == rows[FirstDirected(rows, friendId, userId).value]
    {
      rows := AcceptPending(rows, userId, friendId, now);
      var found := FirstDirected(rows, friendId, userId);
      if found.None? {
        return Err("Không tìm thấy lời mời kết bạn");
      }
      r := Ok(rows[found.value]);
    }

    method RejectFriendRequest(userId: int, friendId: int) returns (r: Result<string, string>)
      modifies this
      ensures nextId == old(nextId)
      ensures r.Err? <==> forall k :: 0 <= k < |old(rows)| ==> !IsRequest(old(rows)[k], friendId, userId)
      ensures r.Err? ==> r.error == "Không tìm thấy lời mời kết bạn" && rows == old(rows)
      ensures r.Ok? ==> r.value == "Đã từ chối lời mời" && rows == DeleteRequests(old(rows), friendId, userId)
    {
      var deleted := Seqs.Count(rows, (x: Row) => IsRequest(x, friendId, userId));
      Seqs.CountZero(rows, (x: Row) => IsRequest(x, friendId, userId));
      if deleted == 0 {
        return Err("Không tìm thấy lời mời kết bạn");
      }
      rows := DeleteRequests(rows, friendId, userId);
      r := Ok("Đã từ chối lời mời");
    }

    method Unfriend(userId: int, friendId: int) returns (r: Result<string, string>)
      modifies this
      ensures nextId == old(nextId)
      ensures r.Err? <==> forall k :: 0 <= k < |old(rows)| ==> !(Between(old(rows)[k], userId, friendId) && old(rows)[k].status == "accepted")
      ensures r.Err? ==> r.error == "Không tìm thấy mối quan hệ bạn bè" && rows == old(rows)
      ensures r.Ok? ==> r.value == "Đã hủy kết bạn" && rows == DeleteFriendship(old(rows), userId, friendId)
    {
      var affected := Seqs.Count(rows, (x: Row) => Between(x, userId, friendId) && x.status == "accepted");
      Seqs.CountZero(rows, (x: Row) => Between(x, userId, friendId) && x.status == "accepted");
      if affected == 0 {
        return Err("Không tìm thấy mối quan hệ bạn bè");
      }
      rows := DeleteFriendship(rows, userId, friendId);
      r := Ok("Đã hủy kết bạn");
    }

    method CancelFriendRequest(userId: int, friendId: int) returns (r: Result<string, string>)
      modifies this
      ensures nextId == old(nextId)
      ensures r.Err? <==> forall k :: 0 <= k < |old(rows)| ==> !IsRequest(old(rows)[k], userId, friendId)
      ensures r.Err? ==> r.error == "Không tìm thấy lời mời" && rows == old(rows)
      ensures r.Ok? ==> r.value == "Đã hủy lời mời" && rows == DeleteRequests(old(rows), userId, friendId)
    {
      var deleted := Seqs.Count(rows, (x: Row) => IsRequest(x, userId, friendId));
      Seqs.CountZero(rows, (x: Row) => IsRequest(x, userId, friendId));
      if deleted == 0 {
        return Err("Không tìm thấy lời mời");
      }
      rows := DeleteRequests(rows, userId, friendId);
      r := Ok("Đã hủy lời mời");
    }

  }
}
