/** The notification store: one record per notification, addressed to a recipient and
    carrying a read flag. A notification's id is its position in the store, which the
    repository assigns on save. */
module Notifications {
  import opened Common

  datatype Notification = Notification(
    id: nat,
    userId: string,
    notificationType: string,
    content: string,
    sourceId: string,
    sourceUserId: string,
    createdAt: int,
    read: bool)

  /** getNotificationContent: the sentence for an interaction of the given type. The helper is
      private and nothing calls it: createNotification stores the content its caller passes, and
      the comment service builds its own sentences (see Comments.FanOut). */
  function NotificationContent(notificationType: string, actorName: string, targetType: string): (s: string)
    ensures StartsWith(s, actorName + " ")
    ensures notificationType == "LIKE" ==> s == actorName + " liked your " + targetType
    ensures notificationType == "COMMENT" ==> s == actorName + " commented on your " + targetType
    ensures notificationType == "REPLY" ==> s == actorName + " replied to your comment"
    ensures notificationType !in {"LIKE", "COMMENT", "REPLY"} ==> s == actorName + " interacted with your " + targetType
    ensures notificationType != "REPLY" ==> EndsWith(s, " your " + targetType)
    ensures notificationType == "LIKE" ==> Contains(s, " liked ")
    ensures notificationType == "COMMENT" ==> Contains(s, " commented on ")
  {
    if notificationType == "LIKE" then
      InfixContained(actorName, " liked ", "your " + targetType);
      assert actorName + " liked " + ("your " + targetType) == actorName + " liked your " + targetType;
      actorName + " liked " + ("your " + targetType)
    else if notificationType == "COMMENT" then
      InfixContained(actorName, " commented on ", "your " + targetType);
      assert actorName + " commented on " + ("your " + targetType) == actorName + " commented on your " + targetType;
      actorName + " commented on " + ("your " + targetType)
    else if notificationType == "REPLY" then
      actorName + " replied to your comment"
    else
      actorName + " interacted with your " + targetType
  }

  /** The store after createNotification: nothing when the recipient is the actor themself,
      otherwise one more unread record at the end. */
  function Stored(ns: seq<Notification>, userId: string, notificationType: string, content: string,
                  sourceId: string, sourceUserId: string, now: int): (r: seq<Notification>)
    ensures userId == sourceUserId ==> r == ns
    ensures userId != sourceUserId ==> |r| == |ns| + 1 && r[..|ns|] == ns
    ensures userId != sourceUserId ==>
              r[|ns|] == Notification(|ns|, userId, notificationType, content, sourceId, sourceUserId, now, false)
  {
    if userId == sourceUserId then ns
    else ns + [Notification(|ns|, userId, notificationType, content, sourceId, sourceUserId, now, false)]
  }

  /** The store after markAsRead(id): the record with that id, if any, is read. */
  function MarkedRead(ns: seq<Notification>, id: int): (r: seq<Notification>)
    ensures |r| == |ns|
    ensures forall i :: 0 <= i < |ns| && i != id ==> r[i] == ns[i]
    ensures 0 <= id < |ns| ==> r[id] == ns[id].(read := true)
  {
    if 0 <= id < |ns| then ns[id := ns[id].(read := true)] else ns
  }

  /** The store after markAllAsRead(u): every record of u is read, every other one is as it was. */
  function AllReadFor(ns: seq<Notification>, userId: string): (r: seq<Notification>)
    ensures |r| == |ns|
    ensures forall i :: 0 <= i < |ns| && ns[i].userId == userId ==> r[i] == ns[i].(read := true)
    ensures forall i :: 0 <= i < |ns| && ns[i].userId != userId ==> r[i] == ns[i]
  {
    seq(|ns|, i requires 0 <= i < |ns| => if ns[i].userId == userId then ns[i].(read := true) else ns[i])
  }

  /** countByUserIdAndRead(u, false). */
  function UnreadCount(ns: seq<Notification>, userId: string): (n: nat)
    ensures n <= |ns|
    ensures n == 0 <==> forall i :: 0 <= i < |ns| && ns[i].userId == userId ==> ns[i].read
  {
    if ns == [] then 0
    else
      var n := UnreadCount(ns[..|ns| - 1], userId) + (if ns[|ns| - 1].userId == userId && !ns[|ns| - 1].read then 1 else 0);
      assert forall i :: 0 <= i < |ns| - 1 ==> ns[..|ns| - 1][i] == ns[i];
      n
  }

  /** A substring found at a known offset. */
  lemma {:induction false} StartsWithAt(s: string, k: nat, part: string)
    requires k + |part| <= |s| && s[k..k + |part|] == part
    ensures Contains(s, part)
    decreases k
  {
    if k > 0 {
      assert s[1..][k - 1..k - 1 + |part|] == s[k..k + |part|];
      StartsWithAt(s[1..], k - 1, part);
    }
  }

  /** A string contains each of its middle parts. */
  lemma InfixContained(pre: string, part: string, post: string)
    ensures Contains(pre + part + post, part)
  {
    var s := pre + part + post;
    assert s[|pre|..|pre| + |part|] == part;
    StartsWithAt(s, |pre|, part);
  }

  /** Storing a notification for u adds one to u's unread count and leaves everyone else's. */
  lemma StoredUnreadCount(ns: seq<Notification>, userId: string, notificationType: string, content: string,
                          sourceId: string, sourceUserId: string, now: int, v: string)
    ensures UnreadCount(Stored(ns, userId, notificationType, content, sourceId, sourceUserId, now), v) ==
            UnreadCount(ns, v) + (if v == userId && userId != sourceUserId then 1 else 0)
  {
    var r := Stored(ns, userId, notificationType, content, sourceId, sourceUserId, now);
    if userId != sourceUserId {
      assert r[..|r| - 1] == ns;
    }
  }

  /** Marking one record read twice is marking it once. */
  lemma MarkedReadIdempotent(ns: seq<Notification>, id: int)
    ensures MarkedRead(MarkedRead(ns, id), id) == MarkedRead(ns, id)
  {
  }

  /** After marking one of u's records read, u has one unread record fewer if it was unread. */
  lemma {:induction false} MarkedReadUnreadCount(ns: seq<Notification>, id: int, v: string)
    ensures UnreadCount(MarkedRead(ns, id), v) ==
            UnreadCount(ns, v) - (if 0 <= id < |ns| && ns[id].userId == v && !ns[id].read then 1 else 0)
  {
    if ns != [] {
      var r := MarkedRead(ns, id);
      var last := |ns| - 1;
      assert r[..last] == MarkedRead(ns[..last], id);
      MarkedReadUnreadCount(ns[..last], id, v);
    }
  }

  /** After markAllAsRead(u), u has no unread notification. */
  lemma {:induction false} AllReadForClearsUnread(ns: seq<Notification>, userId: string)
    ensures UnreadCount(AllReadFor(ns, userId), userId) == 0
  {
    var r := AllReadFor(ns, userId);
    assert forall i :: 0 <= i < |r| && r[i].userId == userId ==> r[i].read;
  }

  /** markAllAsRead(u) leaves every other user's records, and their unread count, as they were. */
  lemma {:induction false} AllReadForKeepsOthers(ns: seq<Notification>, userId: string, v: string)
    requires v != userId
    ensures forall i :: 0 <= i < |ns| && ns[i].userId != userId ==> AllReadFor(ns, userId)[i] == ns[i]
    ensures UnreadCount(AllReadFor(ns, userId), v) == UnreadCount(ns, v)
  {
    if ns != [] {
      var last := |ns| - 1;
      assert AllReadFor(ns, userId)[..last] == AllReadFor(ns[..last], userId);
      AllReadForKeepsOthers(ns[..last], userId, v);
    }
  }

  /** The notification service over its repository. */
  class NotificationService {
    var notifications: seq<Notification>

    constructor ()
      ensures notifications == []
    {
      notifications := [];
    }

    /** createNotification (the store part). Saving cannot fail here, so the catch-all around it
        has nothing to swallow and no error ever reaches the caller. */
    method CreateNotification(userId: string, notificationType: string, content: string,
                              sourceId: string, sourceUserId: string, now: int)
      modifies this
      ensures notifications == Stored(old(notifications), userId, notificationType, content, sourceId, sourceUserId, now)
    {
      if userId == sourceUserId {
        return;
      }
      var notification := Notification(|notifications|, userId, notificationType, content, sourceId, sourceUserId, now, false);
      notifications := notifications + [notification];
    }

    /** markAsRead: a no-op for an unknown id. */
    method MarkAsRead(notificationId: int)
      modifies this
      ensures notifications == MarkedRead(old(notifications), notificationId)
    {
      if 0 <= notificationId < |notifications| {
        notifications := notifications[notificationId := notifications[notificationId].(read := true)];
      }
    }

    /** markAllAsRead: every unread record of the user is set read and saved. */
    method MarkAllAsRead(userId: string)
      modifies this
      ensures notifications == AllReadFor(old(notifications), userId)
    {
      ghost var before := notifications;
      for i := 0 to |notifications|
        invariant |notifications| == |before|
        invariant forall k :: 0 <= k < i ==> notifications[k] == AllReadFor(before, userId)[k]
        invariant forall k :: i <= k < |before| ==> notifications[k] == before[k]
      {
        if notifications[i].userId == userId && !notifications[i].read {
          notifications := notifications[i := notifications[i].(read := true)];
        }
      }
    }

    /** getUnreadCount. */
    function GetUnreadCount(userId: string): (n: nat)
      reads this
      ensures n == UnreadCount(notifications, userId)
      ensures n <= |notifications|
    {
      UnreadCount(notifications, userId)
    }
  }
}
