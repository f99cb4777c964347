/** The account management service: suspension and its expiry, user deactivation and
    reactivation, soft and hard deletion, and the GDPR anonymisation of an account and of
    what it wrote. */
module AccountManagement {
  import opened Wrappers
  import Seqs
  import Text

  /** The columns of `users` the service writes. */
  datatype Account = Account(
    status: string,
    suspendedAt: Option<int>, suspendedUntil: Option<int>, suspensionReason: Option<string>, suspendedBy: Option<int>,
    email: string, fullName: string, username: string, password: string,
    avatar: Option<string>, background: Option<string>, bio: Option<string>, address: Option<string>,
    dateOfBirth: Option<string>, phoneNumber: Option<string>,
    twoFactorSecret: Option<string>, twoFactorBackupCodes: Option<string>,
    updatedAt: int)

  /** `suspendAccount`: `until` `None` is a permanent suspension. */
  function Suspended(a: Account, reason: Option<string>, until: Option<int>, suspendedBy: Option<int>, now: int): (b: Account)
    ensures b.status == "suspended" && b.suspendedAt == Some(now) && b.suspendedUntil == until
    ensures b.suspensionReason == reason && b.suspendedBy == suspendedBy && b.updatedAt == now
    ensures b.(status := a.status, suspendedAt := a.suspendedAt, suspendedUntil := a.suspendedUntil,
               suspensionReason := a.suspensionReason, suspendedBy := a.suspendedBy, updatedAt := a.updatedAt) == a
  {
    a.(status := "suspended", suspendedAt := Some(now), suspendedUntil := until,
       suspensionReason := reason, suspendedBy := suspendedBy, updatedAt := now)
  }

  /** `unsuspendAccount`: active, with every suspension column cleared. */
  function Unsuspended(a: Account, now: int): (b: Account)
    ensures b.status == "active" && b.updatedAt == now
    ensures b.suspendedAt.None? && b.suspendedUntil.None? && b.suspensionReason.None? && b.suspendedBy.None?
    ensures b.(status := a.status, suspendedAt := a.suspendedAt, suspendedUntil := a.suspendedUntil,
               suspensionReason := a.suspensionReason, suspendedBy := a.suspendedBy, updatedAt := a.updatedAt) == a
  {
    a.(status := "active", suspendedAt := None, suspendedUntil := None,
       suspensionReason := None, suspendedBy := None, updatedAt := now)
  }

  /** Lifting a suspension forgets everything about it. */
  lemma UnsuspendForgetsSuspension(a: Account, reason: Option<string>, until: Option<int>, suspendedBy: Option<int>, t1: int, t2: int)
    ensures Unsuspended(Suspended(a, reason, until, suspendedBy, t1), t2) == Unsuspended(a, t2)
  {}

  /** The test of `checkSuspensionExpiry`: a suspension with an end that has passed. */
  predicate ExpiryDue(a: Account, now: int) {
    a.status == "suspended" && a.suspendedUntil.Some? && now > a.suspendedUntil.value
  }

  /** A permanent suspension never expires, and a timed one expires exactly after its end. */
  lemma ExpiryRule(a: Account, reason: Option<string>, until: Option<int>, suspendedBy: Option<int>, t: int, now: int)
    ensures until.None? ==> !ExpiryDue(Suspended(a, reason, until, suspendedBy, t), now)
    ensures until.Some? ==> (ExpiryDue(Suspended(a, reason, until, suspendedBy, t), now) <==> now > until.value)
    ensures !ExpiryDue(Unsuspended(a, t), now)
  {}

  /** `deactivateAccount`: the reason is kept in `suspension_reason`. */
  function Deactivated(a: Account, reason: Option<string>, now: int): (b: Account)
    ensures b.status == "deactivated" && b.suspensionReason == reason && b.updatedAt == now
    ensures b.(status := a.status, suspensionReason := a.suspensionReason, updatedAt := a.updatedAt) == a
  {
    a.(status := "deactivated", suspensionReason := reason, updatedAt := now)
  }

  /** `reactivateAccount`: only a deactivated account changes. */
  function Reactivated(a: Account, now: int): (b: Account)
    ensures a.status != "deactivated" ==> b == a
    ensures a.status == "deactivated" ==> b == a.(status := "active", suspensionReason := None, updatedAt := now)
  {
    if a.status == "deactivated" then a.(status := "active", suspensionReason := None, updatedAt := now) else a
  }

  /** Deactivating and reactivating returns the account to active, and reactivation never
      lifts a suspension or a deletion. */
  lemma ReactivateRules(a: Account, reason: Option<string>, t1: int, t2: int)
    ensures Reactivated(Deactivated(a, reason, t1), t2).status == "active"
    ensures Reactivated(Deactivated(a, reason, t1), t2).suspensionReason.None?
    ensures a.status in {"suspended", "deleted"} ==> Reactivated(a, t2).status == a.status
  {}

  /** `softDeleteAccount`. */
  function SoftDeleted(a: Account, reason: Option<string>, now: int): (b: Account)
    ensures b.status == "deleted" && b.suspensionReason == reason && b.updatedAt == now
    ensures b.(status := a.status, suspensionReason := a.suspensionReason, updatedAt := a.updatedAt) == a
  {
    a.(status := "deleted", suspensionReason := reason, updatedAt := now)
  }

  function AnonymousEmail(id: int): string {
    "deleted_" + Text.IntToString(id) + "@anonymous.com"
  }

  function AnonymousName(id: int): string {
    "Deleted User " + Text.IntToString(id)
  }

  /** `anonymizeAccount` on the user row. */
  function Anonymized(a: Account, id: int, now: int): (b: Account)
    ensures b.status == "deleted" && b.email == AnonymousEmail(id) && b.username == b.email
    ensures b.fullName == AnonymousName(id) && b.password == "DELETED"
    ensures b.avatar.None? && b.background.None? && b.bio.None? && b.address.None?
    ensures b.dateOfBirth.None? && b.phoneNumber.None? && b.twoFactorSecret.None? && b.twoFactorBackupCodes.None?
    ensures b.suspendedAt == a.suspendedAt && b.suspendedUntil == a.suspendedUntil
    ensures b.suspensionReason == a.suspensionReason && b.suspendedBy == a.suspendedBy && b.updatedAt == now
  {
    var email := AnonymousEmail(id);
    a.(status := "deleted", email := email, fullName := AnonymousName(id), username := email, password := "DELETED",
       avatar := None, background := None, bio := None, address := None, dateOfBirth := None,
       phoneNumber := None, twoFactorSecret := None, twoFactorBackupCodes := None, updatedAt := now)
  }

  /** Nothing personal survives: two accounts with the same id and suspension history are
      identical once anonymised, and anonymising twice is anonymising once. */
  lemma AnonymizeForgets(a: Account, b: Account, id: int, now: int, later: int)
    requires a.suspendedAt == b.suspendedAt && a.suspendedUntil == b.suspendedUntil
    requires a.suspensionReason == b.suspensionReason && a.suspendedBy == b.suspendedBy
    ensures Anonymized(a, id, now) == Anonymized(b, id, now)
    ensures Anonymized(Anonymized(a, id, now), id, later) == Anonymized(a, id, later)
  {}

  /** `isAccountActive`: a missing user is not active. */
  function IsAccountActive(users: map<int, Account>, id: int): (b: bool)
    ensures b <==> id in users && users[id].status == "active"
  {
    id in users && users[id].status == "active"
  }

  /** A suspended, deactivated or deleted account is never active, and lifting a
      suspension or reactivating makes it active. */
  lemma ActiveAfterTransitions(users: map<int, Account>, id: int, a: Account, reason: Option<string>, until: Option<int>, suspendedBy: Option<int>, now: int)
    ensures !IsAccountActive(users[id := Suspended(a, reason, until, suspendedBy, now)], id)
    ensures !IsAccountActive(users[id := Deactivated(a, reason, now)], id)
    ensures !IsAccountActive(users[id := SoftDeleted(a, reason, now)], id)
    ensures !IsAccountActive(users[id := Anonymized(a, id, now)], id)
    ensures IsAccountActive(users[id := Unsuspended(a, now)], id)
    ensures IsAccountActive(users[id := Reactivated(Deactivated(a, reason, now), now)], id)
  {}

  datatype Message = Message(id: int, senderId: int, content: string)
  datatype Notification = Notification(id: int, userId: int, senderId: Option<int>)
  datatype Story = Story(id: int, userId: int)
  /** A post or a comment: the owner, the text and the media. */
  datatype Content = Content(id: int, userId: int, content: string, media: Option<string>)

  const PostRemoved := "[Content removed by user]"
  const CommentRemoved := "[Comment removed by user]"

  /** The content rows of `userId` get `text` and lose their media; the rest stay. */
  function Scrubbed(rows: seq<Content>, userId: int, text: string): (r: seq<Content>)
    ensures |r| == |rows|
    ensures forall k :: 0 <= k < |r| ==> r[k] == if rows[k].userId == userId then rows[k].(content := text, media := None) else rows[k]
  {
    seq(|rows|, k requires 0 <= k < |rows| => if rows[k].userId == userId then rows[k].(content := text, media := None) else rows[k])
  }

  function WithoutMessagesFrom(ms: seq<Message>, userId: int): (r: seq<Message>)
    ensures forall m :: m in r <==> m in ms && m.senderId != userId
  {
    Seqs.Filter(ms, (m: Message) => m.senderId != userId)
  }

  function WithoutNotificationsOf(ns: seq<Notification>, userId: int): (r: seq<Notification>)
    ensures forall n :: n in r <==> n in ns && n.userId != userId && n.senderId != Some(userId)
  {
    Seqs.Filter(ns, (n: Notification) => n.userId != userId && n.senderId != Some(userId))
  }

  function WithoutStoriesOf(ss: seq<Story>, userId: int): (r: seq<Story>)
    ensures forall s :: s in r <==> s in ss && s.userId != userId
  {
    Seqs.Filter(ss, (s: Story) => s.userId != userId)
  }

  /** The tables the service touches. */
  class AccountStore {
    var users: map<int, Account>
    var messages: seq<Message>
    var notifications: seq<Notification>
    var stories: seq<Story>
    var posts: seq<Content>
    var comments: seq<Content>

    constructor ()
      ensures users == map[] && messages == [] && notifications == [] && stories == [] && posts == [] && comments == []
    {
      users := map[];
      messages := [];
      notifications := [];
      stories := [];
      posts := [];
      comments := [];
    }

    method SuspendAccount(id: int, reason: Option<string>, until: Option<int>, suspendedBy: Option<int>, now: int)
      modifies this
      ensures users == if id in old(users) then old(users)[id := Suspended(old(users)[id], reason, until, suspendedBy, now)] else old(users)
      ensures messages == old(messages) && notifications == old(notifications) && stories == old(stories)
      ensures posts == old(posts) && comments == old(comments)
    {
      if id in users {
        users := users[id := Suspended(users[id], reason, until, suspendedBy, now)];
      }
    }

    method UnsuspendAccount(id: int, now: int)
      modifies this
      ensures users == if id in old(users) then old(users)[id := Unsuspended(old(users)[id], now)] else old(users)
      ensures messages == old(messages) && notifications == old(notifications) && stories == old(stories)
      ensures posts == old(posts) && comments == old(comments)
    {
      if id in users {
        users := users[id := Unsuspended(users[id], now)];
      }
    }

    /** `checkSuspensionExpiry`: an expired suspension is lifted on the spot. */
    method CheckSuspensionExpiry(id: int, now: int) returns (expired: bool)
      modifies this
      ensures expired <==> id in old(users) && ExpiryDue(old(users)[id], now)
      ensures users == if expired then old(users)[id := Unsuspended(old(users)[id], now)] else old(users)
      ensures messages == old(messages) && notifications == old(notifications) && stories == old(stories)
      ensures posts == old(posts) && comments == old(comments)
    {
      if id in users && ExpiryDue(users[id], now) {
        UnsuspendAccount(id, now);
        return true;
      }
      expired := false;
    }

    method DeactivateAccount(id: int, reason: Option<string>, now: int)
      modifies this
      ensures users == if id in old(users) then old(users)[id := Deactivated(old(users)[id], reason, now)] else old(users)
      ensures messages == old(messages) && notifications == old(notifications) && stories == old(stories)
      ensures posts == old(posts) && comments == old(comments)
    {
      if id in users {
        users := users[id := Deactivated(users[id], reason, now)];
      }
    }

    method ReactivateAccount(id: int, now: int)
      modifies this
      ensures users == if id in old(users) then old(users)[id := Reactivated(old(users)[id], now)] else old(users)
      ensures messages == old(messages) && notifications == old(notifications) && stories == old(stories)
      ensures posts == old(posts) && comments == old(comments)
    {
      if id in users && users[id].status == "deactivated" {
        users := users[id := Reactivated(users[id], now)];
      }
    }

    method SoftDeleteAccount(id: int, reason: Option<string>, now: int)
      modifies this
      ensures users == if id in old(users) then old(users)[id := SoftDeleted(old(users)[id], reason, now)] else old(users)
      ensures messages == old(messages) && notifications == old(notifications) && stories == old(stories)
      ensures posts == old(posts) && comments == old(comments)
    {
      if id in users {
        users := users[id := SoftDeleted(users[id], reason, now)];
      }
    }

    /** `anonymizeAccount`: the row loses its personal data, the user's messages,
        notifications and stories go, and their posts and comments are blanked. */
    method AnonymizeAccount(id: int, now: int)
      modifies this
      ensures users == if id in old(users) then old(users)[id := Anonymized(old(users)[id], id, now)] else old(users)
      ensures messages == WithoutMessagesFrom(old(messages), id)
      ensures notifications == WithoutNotificationsOf(old(notifications), id)
      ensures stories == WithoutStoriesOf(old(stories), id)
      ensures posts == Scrubbed(old(posts), id, PostRemoved) && comments == Scrubbed(old(comments), id, CommentRemoved)
    {
      if id in users {
        users := users[id := Anonymized(users[id], id, now)];
      }
      messages := WithoutMessagesFrom(messages, id);
      notifications := WithoutNotificationsOf(notifications, id);
      stories := WithoutStoriesOf(stories, id);
      posts := Scrubbed(posts, id, PostRemoved);
      comments := Scrubbed(comments, id, CommentRemoved);
    }

    /** `hardDeleteAccount`: the row goes; the database's cascades are not modelled. */
    method HardDeleteAccount(id: int)
      modifies this
      ensures users == old(users) - {id}
      ensures messages == old(messages) && notifications == old(notifications) && stories == old(stories)
      ensures posts == old(posts) && comments == old(comments)
    {
      users := users - {id};
    }
  }

  /** After anonymisation nothing in the touched tables still carries the user's words. */
  lemma AnonymizedLeavesNoTrace(ms: seq<Message>, ns: seq<Notification>, ss: seq<Story>, ps: seq<Content>, id: int)
    ensures forall m :: m in WithoutMessagesFrom(ms, id) ==> m.senderId != id
    ensures forall n :: n in WithoutNotificationsOf(ns, id) ==> n.userId != id && n.senderId != Some(id)
    ensures forall s :: s in WithoutStoriesOf(ss, id) ==> s.userId != id
    ensures forall k :: 0 <= k < |Scrubbed(ps, id, PostRemoved)| && Scrubbed(ps, id, PostRemoved)[k].userId == id ==>
      Scrubbed(ps, id, PostRemoved)[k].content == PostRemoved && Scrubbed(ps, id, PostRemoved)[k].media.None?
  {}
}
