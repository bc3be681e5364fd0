/** The comment lifecycle: creating a comment (and the notifications it fans out), the
    author-only update, the three-way delete permission, the "like" toggle and the per-post
    comment count. */
module Comments {
  import opened Common
  import opened PostModel
  import opened UserModel
  import opened Notifications

  datatype Comment = Comment(
    id: string,
    postId: string,
    userId: string,
    content: string,
    parentCommentId: Option<string>,
    mentions: Option<seq<string>>,
    createdAt: int,
    updatedAt: Option<int>)

  /** One createNotification call the service makes: recipient, type and sentence. */
  datatype Request = Request(recipient: string, notificationType: string, content: string)

  /** The name used in the sentences: the commenter's full name, or "Someone" when the user
      record is missing. */
  function CommenterName(users: map<string, User>, userId: string): (name: string)
    ensures userId in users ==> name == FullName(users[userId])
    ensures userId !in users ==> name == "Someone"
  {
    if userId in users then FullName(users[userId]) else "Someone"
  }

  /** The mention list a new comment stores: the given list when it is non-null and non-empty,
      otherwise the field keeps its default (null). */
  function StoredMentions(mentions: Option<seq<string>>): (r: Option<seq<string>>)
    ensures r.Some? <==> mentions.Some? && mentions.value != []
    ensures r.Some? ==> r == mentions
  {
    if mentions.Some? && mentions.value != [] then mentions else None
  }

  /** The MENTION requests of the mention loop, in list order: one per listed id that is neither
      the commenter nor the post owner (a repeated id is requested again). */
  function MentionRequests(mentions: seq<string>, commenter: string, owner: string, name: string): (rs: seq<Request>)
    ensures |rs| <= |mentions|
    ensures forall r :: r in rs ==> r.notificationType == "MENTION" && r.recipient in mentions
    ensures forall r :: r in rs ==> r.recipient != commenter && r.recipient != owner
    ensures forall r :: r in rs ==> r.content == name + " mentioned you in a comment"
  {
    if mentions == [] then []
    else
      var last := mentions[|mentions| - 1];
      var front := MentionRequests(mentions[..|mentions| - 1], commenter, owner, name);
      assert forall r :: r in front ==> r.recipient in mentions by {
        forall r | r in front ensures r.recipient in mentions {
          var i :| 0 <= i < |mentions| - 1 && mentions[..|mentions| - 1][i] == r.recipient;
          assert mentions[i] == r.recipient;
        }
      }
      if last != commenter && last != owner then front + [Request(last, "MENTION", name + " mentioned you in a comment")]
      else front
  }

  /** Every request a comment issues, in order: first the COMMENT request to the post owner (top
      level) or the REPLY request to the parent comment's author, then the mention requests. */
  function FanOut(owner: string, commenter: string, name: string, parentAuthor: Option<string>,
                  mentions: Option<seq<string>>): (rs: seq<Request>)
    ensures |rs| >= 1
    ensures parentAuthor.None? ==> rs[0] == Request(owner, "COMMENT", name + " commented on your post")
    ensures parentAuthor.Some? ==> rs[0] == Request(parentAuthor.value, "REPLY", name + " replied to your comment")
    ensures forall i :: 1 <= i < |rs| ==> rs[i].notificationType == "MENTION"
    ensures forall i :: 1 <= i < |rs| ==> rs[i].recipient != commenter && rs[i].recipient != owner
  {
    var first := if parentAuthor.None? then Request(owner, "COMMENT", name + " commented on your post")
                 else Request(parentAuthor.value, "REPLY", name + " replied to your comment");
    var rest := MentionRequests(OrEmptySeq(mentions), commenter, owner, name);
    assert forall i :: 1 <= i < |[first] + rest| ==> ([first] + rest)[i] in rest;
    [first] + rest
  }

  /** The notification store after the service has made the given requests in order, each
      through createNotification with the comment's post as source and the commenter as actor. */
  function Deliver(ns: seq<Notification>, reqs: seq<Request>, sourceId: string, sourceUserId: string, now: int): (r: seq<Notification>)
    ensures |ns| <= |r| <= |ns| + |reqs|
    ensures r[..|ns|] == ns
    ensures (forall q :: q in reqs ==> q.recipient == sourceUserId) ==> r == ns
  {
    if reqs == [] then ns
    else
      var front := reqs[..|reqs| - 1];
      var q := reqs[|reqs| - 1];
      assert forall x :: x in front ==> x in reqs;
      var before := Deliver(ns, front, sourceId, sourceUserId, now);
      var after := Stored(before, q.recipient, q.notificationType, q.content, sourceId, sourceUserId, now);
      assert after[..|ns|] == before[..|ns|] by {
        assert after[..|before|] == before;
      }
      after
  }

  /** Number of requests addressed to a user. */
  function RequestsTo(reqs: seq<Request>, userId: string): (n: nat)
    ensures n <= |reqs|
    ensures n == 0 <==> forall r :: r in reqs ==> r.recipient != userId
  {
    if reqs == [] then 0
    else
      var front := reqs[..|reqs| - 1];
      assert forall r :: r in reqs <==> r in front || r == reqs[|reqs| - 1] by { assert reqs == front + [reqs[|reqs| - 1]]; }
      RequestsTo(front, userId) + (if reqs[|reqs| - 1].recipient == userId then 1 else 0)
  }

  /* ---------- Lemmas about the fan-out ---------- */

  /** One more listed mention adds one request when it names someone other than the commenter
      and the post owner, and none otherwise. */
  lemma MentionStep(ms: seq<string>, i: nat, commenter: string, owner: string, name: string)
    requires i < |ms|
    ensures MentionRequests(ms[..i + 1], commenter, owner, name) ==
            MentionRequests(ms[..i], commenter, owner, name) +
            (if ms[i] != commenter && ms[i] != owner
             then [Request(ms[i], "MENTION", name + " mentioned you in a comment")] else [])
  {
    assert ms[..i + 1][..i] == ms[..i];
  }

  /** Delivering one more request stores one more notification through createNotification. */
  lemma DeliverSnoc(ns: seq<Notification>, reqs: seq<Request>, q: Request, sourceId: string,
                    sourceUserId: string, now: int)
    ensures Deliver(ns, reqs + [q], sourceId, sourceUserId, now) ==
            Stored(Deliver(ns, reqs, sourceId, sourceUserId, now), q.recipient, q.notificationType, q.content,
                   sourceId, sourceUserId, now)
  {
    assert (reqs + [q])[..|reqs|] == reqs;
  }

  lemma {:induction false} DeliverAppend(ns: seq<Notification>, a: seq<Request>, b: seq<Request>,
                                         sourceId: string, sourceUserId: string, now: int)
    ensures Deliver(ns, a + b, sourceId, sourceUserId, now) ==
            Deliver(Deliver(ns, a, sourceId, sourceUserId, now), b, sourceId, sourceUserId, now)
  {
    if b == [] {
      assert a + b == a;
    } else {
      var front := b[..|b| - 1];
      assert (a + b)[..|a + b| - 1] == a + front;
      DeliverAppend(ns, a, front, sourceId, sourceUserId, now);
    }
  }

  /** The actor is never notified about their own comment: the earlier records stay, and every
      new record is an unread one addressed to somebody else, with the comment's post and actor
      as source. */
  lemma {:induction false} DeliverNeverNotifiesActor(ns: seq<Notification>, reqs: seq<Request>,
                                                     sourceId: string, sourceUserId: string, now: int)
    ensures var r := Deliver(ns, reqs, sourceId, sourceUserId, now);
            |ns| <= |r| && r[..|ns|] == ns
    ensures var r := Deliver(ns, reqs, sourceId, sourceUserId, now);
            forall i :: |ns| <= i < |r| ==>
              r[i].userId != sourceUserId && r[i].sourceUserId == sourceUserId &&
              r[i].sourceId == sourceId && !r[i].read
  {
    if reqs != [] {
      var front := reqs[..|reqs| - 1];
      DeliverNeverNotifiesActor(ns, front, sourceId, sourceUserId, now);
      var d := Deliver(ns, front, sourceId, sourceUserId, now);
      var q := reqs[|reqs| - 1];
      var r := Stored(d, q.recipient, q.notificationType, q.content, sourceId, sourceUserId, now);
      if q.recipient != sourceUserId {
        assert r[..|ns|] == d[..|ns|];
      }
    }
  }

  /** Each user other than the actor gains exactly one unread notification per request addressed
      to them; the actor gains none. */
  lemma {:induction false} DeliverUnreadCount(ns: seq<Notification>, reqs: seq<Request>,
                                              sourceId: string, sourceUserId: string, now: int, v: string)
    ensures UnreadCount(Deliver(ns, reqs, sourceId, sourceUserId, now), v) ==
            UnreadCount(ns, v) + (if v == sourceUserId then 0 else RequestsTo(reqs, v))
  {
    if reqs != [] {
      var front := reqs[..|reqs| - 1];
      var q := reqs[|reqs| - 1];
      DeliverUnreadCount(ns, front, sourceId, sourceUserId, now, v);
      StoredUnreadCount(Deliver(ns, front, sourceId, sourceUserId, now),
                        q.recipient, q.notificationType, q.content, sourceId, sourceUserId, now, v);
    }
  }

  lemma {:induction false} OccurrencesSnoc(s: seq<string>, x: string, y: string)
    ensures Occurrences(s + [x], y) == Occurrences(s, y) + (if x == y then 1 else 0)
  {
    if s != [] {
      assert (s + [x])[1..] == s[1..] + [x];
      OccurrencesSnoc(s[1..], x, y);
    }
  }

  /** A mentioned user who is neither the commenter nor the post owner is requested once per
      occurrence in the mention list; the commenter and the owner are never requested. */
  lemma {:induction false} MentionRequestCount(mentions: seq<string>, commenter: string, owner: string,
                                               name: string, v: string)
    ensures RequestsTo(MentionRequests(mentions, commenter, owner, name), v) ==
            (if v == commenter || v == owner then 0 else Occurrences(mentions, v))
  {
    if mentions != [] {
      var front := mentions[..|mentions| - 1];
      var last := mentions[|mentions| - 1];
      MentionRequestCount(front, commenter, owner, name, v);
      OccurrencesSnoc(front, last, v);
      assert front + [last] == mentions;
      var fr := MentionRequests(front, commenter, owner, name);
      if last != commenter && last != owner {
        var req := Request(last, "MENTION", name + " mentioned you in a comment");
        assert (fr + [req])[..|fr|] == fr;
      }
    }
  }

  /** Unread notifications a top-level comment adds: one for the post owner unless the owner
      wrote it, one per mention occurrence for every other mentioned user, none for the commenter. */
  lemma TopLevelCommentUnreadCount(ns: seq<Notification>, owner: string, commenter: string, name: string,
                                   mentions: seq<string>, postId: string, now: int, v: string)
    ensures UnreadCount(Deliver(ns, FanOut(owner, commenter, name, None, Some(mentions)), postId, commenter, now), v) ==
            UnreadCount(ns, v) +
            (if v == commenter then 0 else if v == owner then 1 else Occurrences(mentions, v))
  {
    var rs := FanOut(owner, commenter, name, None, Some(mentions));
    var ms := MentionRequests(mentions, commenter, owner, name);
    assert rs == [rs[0]] + ms;
    DeliverUnreadCount(ns, rs, postId, commenter, now, v);
    MentionRequestCount(mentions, commenter, owner, name, v);
    assert RequestsTo(rs, v) == RequestsTo([rs[0]], v) + RequestsTo(ms, v) by {
      RequestsToAppend([rs[0]], ms, v);
    }
  }

  lemma {:induction false} RequestsToAppend(a: seq<Request>, b: seq<Request>, v: string)
    ensures RequestsTo(a + b, v) == RequestsTo(a, v) + RequestsTo(b, v)
  {
    if b == [] {
      assert a + b == a;
    } else {
      assert (a + b)[..|a + b| - 1] == a + b[..|b| - 1];
      RequestsToAppend(a, b[..|b| - 1], v);
    }
  }

  /* ---------- Comment reactions ---------- */

  datatype CommentReaction = CommentReaction(id: string, commentId: string, userId: string, reactionType: string)

  /** At most one reaction per (comment, user), and unique ids. */
  predicate ReactionsWellFormed(rs: seq<CommentReaction>) {
    forall i, j :: 0 <= i < j < |rs| ==>
      rs[i].id != rs[j].id && !(rs[i].commentId == rs[j].commentId && rs[i].userId == rs[j].userId)
  }

  /** findByCommentIdAndUserId. */
  function FindCommentReaction(rs: seq<CommentReaction>, commentId: string, userId: string): (r: Option<CommentReaction>)
    ensures r.Some? ==> r.value in rs && r.value.commentId == commentId && r.value.userId == userId
    ensures r.None? <==> forall x :: x in rs ==> !(x.commentId == commentId && x.userId == userId)
  {
    if rs == [] then None
    else if rs[0].commentId == commentId && rs[0].userId == userId then Some(rs[0])
    else FindCommentReaction(rs[1..], commentId, userId)
  }

  /** deleteById on the reaction collection. */
  function WithoutReactionId(rs: seq<CommentReaction>, id: string): (r: seq<CommentReaction>)
    ensures forall x :: x in r <==> x in rs && x.id != id
    ensures |r| <= |rs|
    ensures (forall x :: x in rs ==> x.id != id) ==> r == rs
  {
    if rs == [] then []
    else if rs[0].id == id then WithoutReactionId(rs[1..], id)
    else [rs[0]] + WithoutReactionId(rs[1..], id)
  }

  /** The reaction collection after reactToComment: the user's reaction on the comment is
      withdrawn if there is one, otherwise a new one is saved. */
  function Toggled(rs: seq<CommentReaction>, commentId: string, userId: string, reactionType: string,
                   freshId: string): (r: seq<CommentReaction>)
    ensures |r| <= |rs| + 1
    ensures FindCommentReaction(rs, commentId, userId).None? ==>
              FindCommentReaction(r, commentId, userId) == Some(CommentReaction(freshId, commentId, userId, reactionType))
    ensures FindCommentReaction(rs, commentId, userId).Some? ==>
              FindCommentReaction(rs, commentId, userId).value !in r && forall x :: x in r ==> x in rs
  {
    var existing := FindCommentReaction(rs, commentId, userId);
    if existing.Some? then WithoutReactionId(rs, existing.value.id)
    else
      var n := CommentReaction(freshId, commentId, userId, reactionType);
      FindAfterSnoc(rs, n, commentId, userId);
      rs + [n]
  }

  /** countByCommentIdAndReactionType(commentId, "like"). */
  function LikeCount(rs: seq<CommentReaction>, commentId: string): (n: nat)
    ensures n <= |rs|
  {
    if rs == [] then 0
    else (if rs[0].commentId == commentId && rs[0].reactionType == "like" then 1 else 0) + LikeCount(rs[1..], commentId)
  }

  /** A reaction saved at the end adds one like to its comment when it is a like. */
  lemma {:induction false} LikeCountSnoc(rs: seq<CommentReaction>, n: CommentReaction, commentId: string)
    ensures LikeCount(rs + [n], commentId) ==
            LikeCount(rs, commentId) + (if n.commentId == commentId && n.reactionType == "like" then 1 else 0)
  {
    if rs == [] {
      assert [n][1..] == [];
    } else {
      assert (rs + [n])[1..] == rs[1..] + [n];
      LikeCountSnoc(rs[1..], n, commentId);
    }
  }

  /** Deleting a stored reaction by its id takes away exactly its own like, if it is one. */
  lemma {:induction false} LikeCountWithoutId(rs: seq<CommentReaction>, x: CommentReaction, commentId: string)
    requires ReactionsWellFormed(rs) && x in rs
    ensures LikeCount(WithoutReactionId(rs, x.id), commentId) ==
            LikeCount(rs, commentId) - (if x.commentId == commentId && x.reactionType == "like" then 1 else 0)
  {
    TailWellFormed(rs);
    if rs[0] == x {
      forall y | y in rs[1..] ensures y.id != x.id {
        var k :| 0 <= k < |rs[1..]| && rs[1..][k] == y;
        assert rs[k + 1] == y;
      }
    } else {
      var k :| 0 <= k < |rs| && rs[k] == x;
      assert k != 0 && rs[0].id != x.id;
      assert rs[1..][k - 1] == x;
      LikeCountWithoutId(rs[1..], x, commentId);
    }
  }

  /** The like count a toggle leaves: a new like adds one to its comment, withdrawing a like
      takes one away, and any other reaction type, or any other comment, keeps its count. */
  lemma ToggledLikeCount(rs: seq<CommentReaction>, commentId: string, userId: string, reactionType: string,
                         freshId: string, c: string)
    requires ReactionsWellFormed(rs)
    ensures var existing := FindCommentReaction(rs, commentId, userId);
            existing.None? ==>
              LikeCount(Toggled(rs, commentId, userId, reactionType, freshId), c) ==
              LikeCount(rs, c) + (if c == commentId && reactionType == "like" then 1 else 0)
    ensures var existing := FindCommentReaction(rs, commentId, userId);
            existing.Some? ==>
              LikeCount(Toggled(rs, commentId, userId, reactionType, freshId), c) ==
              LikeCount(rs, c) - (if c == commentId && existing.value.reactionType == "like" then 1 else 0)
  {
    var existing := FindCommentReaction(rs, commentId, userId);
    if existing.Some? {
      LikeCountWithoutId(rs, existing.value, c);
    } else {
      LikeCountSnoc(rs, CommentReaction(freshId, commentId, userId, reactionType), c);
    }
  }

  /** The rest of a well-formed collection is well formed. */
  lemma TailWellFormed(rs: seq<CommentReaction>)
    requires rs != [] && ReactionsWellFormed(rs)
    ensures ReactionsWellFormed(rs[1..])
  {
    forall i, j | 0 <= i < j < |rs[1..]|
      ensures rs[1..][i].id != rs[1..][j].id
              && !(rs[1..][i].commentId == rs[1..][j].commentId && rs[1..][i].userId == rs[1..][j].userId)
    {
      assert rs[1..][i] == rs[i + 1] && rs[1..][j] == rs[j + 1];
    }
  }

  /** A reaction in front of a well-formed collection it clashes with nowhere. */
  lemma ConsWellFormed(x: CommentReaction, tail: seq<CommentReaction>)
    requires ReactionsWellFormed(tail)
    requires forall y :: y in tail ==> y.id != x.id && !(y.commentId == x.commentId && y.userId == x.userId)
    ensures ReactionsWellFormed([x] + tail)
  {
    var r := [x] + tail;
    forall i, j | 0 <= i < j < |r|
      ensures r[i].id != r[j].id && !(r[i].commentId == r[j].commentId && r[i].userId == r[j].userId)
    {
      if i == 0 {
        assert r[j] == tail[j - 1] && r[j] in tail;
      } else {
        assert r[i] == tail[i - 1] && r[j] == tail[j - 1];
      }
    }
  }

  /** Deleting by id keeps the collection well formed. */
  lemma {:induction false} WithoutReactionIdWellFormed(rs: seq<CommentReaction>, id: string)
    requires ReactionsWellFormed(rs)
    ensures ReactionsWellFormed(WithoutReactionId(rs, id))
  {
    if rs != [] {
      TailWellFormed(rs);
      WithoutReactionIdWellFormed(rs[1..], id);
      var tail := WithoutReactionId(rs[1..], id);
      if rs[0].id != id {
        forall y | y in tail ensures y.id != rs[0].id && !(y.commentId == rs[0].commentId && y.userId == rs[0].userId) {
          var k :| 0 <= k < |rs[1..]| && rs[1..][k] == y;
          assert rs[k + 1] == y;
        }
        ConsWellFormed(rs[0], tail);
      }
    }
  }

  /** Deleting the found reaction by id removes every reaction of the (comment, user) pair. */
  lemma WithoutFoundHasNone(rs: seq<CommentReaction>, commentId: string, userId: string)
    requires ReactionsWellFormed(rs)
    requires FindCommentReaction(rs, commentId, userId).Some?
    ensures FindCommentReaction(WithoutReactionId(rs, FindCommentReaction(rs, commentId, userId).value.id), commentId, userId).None?
  {
    var x := FindCommentReaction(rs, commentId, userId).value;
    forall y | y in rs && y.commentId == commentId && y.userId == userId ensures y.id == x.id {
      var i :| 0 <= i < |rs| && rs[i] == y;
      var j :| 0 <= j < |rs| && rs[j] == x;
      PairUnique(rs, i, j);
    }
  }

  lemma PairUnique(rs: seq<CommentReaction>, i: nat, j: nat)
    requires ReactionsWellFormed(rs)
    requires i < |rs| && j < |rs|
    requires rs[i].commentId == rs[j].commentId && rs[i].userId == rs[j].userId
    ensures i == j
  {
  }

  /** The toggle law: reacting flips whether the user has reacted to the comment, and keeps the
      collection well formed. */
  lemma ToggleFlips(rs: seq<CommentReaction>, commentId: string, userId: string, reactionType: string, freshId: string)
    requires ReactionsWellFormed(rs)
    requires forall x :: x in rs ==> x.id != freshId
    ensures ReactionsWellFormed(Toggled(rs, commentId, userId, reactionType, freshId))
    ensures FindCommentReaction(Toggled(rs, commentId, userId, reactionType, freshId), commentId, userId).Some?
            <==> FindCommentReaction(rs, commentId, userId).None?
  {
    var existing := FindCommentReaction(rs, commentId, userId);
    if existing.Some? {
      WithoutReactionIdWellFormed(rs, existing.value.id);
      WithoutFoundHasNone(rs, commentId, userId);
    } else {
      var n := CommentReaction(freshId, commentId, userId, reactionType);
      var r := rs + [n];
      forall i, j | 0 <= i < j < |r|
        ensures r[i].id != r[j].id && !(r[i].commentId == r[j].commentId && r[i].userId == r[j].userId)
      {
        if j == |rs| {
          assert r[i] == rs[i] && r[i] in rs;
        } else {
          assert r[i] == rs[i] && r[j] == rs[j];
        }
      }
      assert n in r;
    }
  }

  /** Two reactions in a row by a user who had none restore the collection exactly. */
  lemma ToggleTwiceRestores(rs: seq<CommentReaction>, commentId: string, userId: string,
                            firstType: string, secondType: string, firstId: string, secondId: string)
    requires FindCommentReaction(rs, commentId, userId).None?
    requires forall x :: x in rs ==> x.id != firstId
    ensures Toggled(Toggled(rs, commentId, userId, firstType, firstId), commentId, userId, secondType, secondId) == rs
  {
    var n := CommentReaction(firstId, commentId, userId, firstType);
    FindAfterSnoc(rs, n, commentId, userId);
    WithoutIdSnoc(rs, n);
  }

  lemma {:induction false} FindAfterSnoc(rs: seq<CommentReaction>, n: CommentReaction, commentId: string, userId: string)
    requires FindCommentReaction(rs, commentId, userId).None?
    requires n.commentId == commentId && n.userId == userId
    ensures FindCommentReaction(rs + [n], commentId, userId) == Some(n)
  {
    if rs != [] {
      assert (rs + [n])[1..] == rs[1..] + [n];
      FindAfterSnoc(rs[1..], n, commentId, userId);
    }
  }

  lemma {:induction false} WithoutIdSnoc(rs: seq<CommentReaction>, n: CommentReaction)
    requires forall x :: x in rs ==> x.id != n.id
    ensures WithoutReactionId(rs + [n], n.id) == rs
  {
    if rs == [] {
      assert WithoutReactionId([n], n.id) == WithoutReactionId([], n.id);
    } else {
      assert (rs + [n])[1..] == rs[1..] + [n];
      WithoutIdSnoc(rs[1..], n);
    }
  }

  /* ---------- Comment counts ---------- */

  /** findByPostId(postId).size(). */
  function CommentCountOf(comments: map<string, Comment>, postId: string): (n: nat)
    ensures n <= |comments|
    ensures n == 0 <==> forall id :: id in comments ==> comments[id].postId != postId
  {
    var ids := set id | id in comments && comments[id].postId == postId;
    assert ids <= comments.Keys;
    assert forall id :: id in comments && comments[id].postId == postId ==> id in ids;
    SubsetCardinality(ids, comments.Keys);
    if ids == {} then 0
    else
      var id :| id in ids;
      assert id in comments && comments[id].postId == postId;
      |ids|
  }

  /** Saving a new comment adds one to its post's count and leaves other posts' counts. */
  lemma CommentCountAfterSave(comments: map<string, Comment>, id: string, c: Comment, postId: string)
    requires id !in comments
    ensures CommentCountOf(comments[id := c], postId) ==
            CommentCountOf(comments, postId) + (if c.postId == postId then 1 else 0)
  {
    var before := set k | k in comments && comments[k].postId == postId;
    var m := comments[id := c];
    var after := set k | k in m && m[k].postId == postId;
    if c.postId == postId {
      assert after == before + {id};
    } else {
      assert after == before;
    }
  }

  /** Deleting a comment takes one from its post's count. */
  lemma CommentCountAfterDelete(comments: map<string, Comment>, id: string, postId: string)
    requires id in comments
    ensures CommentCountOf(comments - {id}, postId) ==
            CommentCountOf(comments, postId) - (if comments[id].postId == postId then 1 else 0)
  {
    var before := set k | k in comments && comments[k].postId == postId;
    var m := comments - {id};
    var after := set k | k in m && m[k].postId == postId;
    if comments[id].postId == postId {
      assert after == before - {id};
    } else {
      assert after == before;
    }
  }

  /** The post store after a comment id is taken out of its post's list, when the post exists. */
  function Detached(posts: map<string, Post>, postId: string, commentId: string): (r: map<string, Post>)
    ensures r.Keys == posts.Keys
    ensures forall p :: p in posts && p != postId ==> r[p] == posts[p]
    ensures postId in posts ==> r[postId] == posts[postId].(comments := RemoveFirst(posts[postId].comments, commentId))
  {
    if postId in posts then posts[postId := posts[postId].(comments := RemoveFirst(posts[postId].comments, commentId))]
    else posts
  }

  /** What deleteComment lets through: an existing comment, deleted by an admin, or by its
      author or the owner of its (existing) post. */
  predicate MayDelete(comments: map<string, Comment>, posts: map<string, Post>, commentId: string,
                      userId: string, isAdmin: bool): (allowed: bool)
    ensures commentId !in comments ==> !allowed
    ensures commentId in comments && isAdmin ==> allowed
    ensures (commentId in comments && comments[commentId].postId in posts &&
             (comments[commentId].userId == userId || posts[comments[commentId].postId].userId == userId)) ==> allowed
    ensures allowed && !isAdmin ==>
              comments[commentId].postId in posts &&
              (userId == comments[commentId].userId || userId == posts[comments[commentId].postId].userId)
  {
    commentId in comments &&
    (isAdmin ||
     (comments[commentId].postId in posts &&
      (comments[commentId].userId == userId || posts[comments[commentId].postId].userId == userId)))
  }

  /** The like count and the caller's own like flag a comment response carries. */
  datatype LikeSummary = LikeSummary(likeCount: nat, userLiked: bool)

  /** The comment service over its repositories and the notification service. */
  class CommentService {
    var comments: map<string, Comment>
    var posts: map<string, Post>
    var users: map<string, User>
    var commentReactions: seq<CommentReaction>
    const notifier: NotificationService

    ghost predicate Valid()
      reads this
    {
      ReactionsWellFormed(commentReactions)
    }

    constructor (notifier: NotificationService, posts: map<string, Post>, users: map<string, User>)
      ensures Valid()
      ensures this.notifier == notifier && this.posts == posts && this.users == users
      ensures comments == map[] && commentReactions == []
    {
      this.notifier := notifier;
      this.posts := posts;
      this.users := users;
      comments := map[];
      commentReactions := [];
    }

    function CommentCount(postId: string): (n: nat)
      reads this
      ensures n == CommentCountOf(comments, postId)
    {
      CommentCountOf(comments, postId)
    }

    /** createComment. The post is looked up first; the comment is saved before any notification,
        so a reply to a missing parent throws with the comment already stored. The post's own
        comment-id list is never touched. */
    method CreateComment(postId: string, userId: string, content: string, parentCommentId: Option<string>,
                         mentions: Option<seq<string>>, freshId: string, now: int) returns (r: Result<Comment>)
      requires freshId !in comments
      modifies this, notifier
      ensures posts == old(posts) && users == old(users) && commentReactions == old(commentReactions)
      ensures postId !in old(posts) ==>
                r == Err(IllegalArgument("Post not found")) && comments == old(comments)
                && notifier.notifications == old(notifier.notifications)
      ensures postId in old(posts) ==>
                var saved := Comment(freshId, postId, userId, content, parentCommentId, StoredMentions(mentions), now, None);
                && comments == old(comments)[freshId := saved]
                && CommentCount(postId) == old(CommentCount(postId)) + 1
                && (parentCommentId.Some? && parentCommentId.value !in comments ==>
                      r == Err(IllegalArgument("Parent comment not found"))
                      && notifier.notifications == old(notifier.notifications))
                && (parentCommentId.None? || parentCommentId.value in comments ==>
                      var parentAuthor := if parentCommentId.None? then None else Some(comments[parentCommentId.value].userId);
                      r == Ok(saved)
                      && notifier.notifications ==
                         Deliver(old(notifier.notifications),
                                 FanOut(old(posts)[postId].userId, userId, CommenterName(users, userId), parentAuthor, mentions),
                                 postId, userId, now))
    {
      if postId !in posts {
        return Err(IllegalArgument("Post not found"));
      }
      var post := posts[postId];
      var saved := Comment(freshId, postId, userId, content, parentCommentId, StoredMentions(mentions), now, None);
      CommentCountAfterSave(comments, freshId, saved, postId);
      comments := comments[freshId := saved];
      var name := CommenterName(users, userId);
      var first: Request;
      if parentCommentId.None? {
        first := Request(post.userId, "COMMENT", name + " commented on your post");
      } else {
        if parentCommentId.value !in comments {
          return Err(IllegalArgument("Parent comment not found"));
        }
        first := Request(comments[parentCommentId.value].userId, "REPLY", name + " replied to your comment");
      }
      ghost var before := notifier.notifications;
      notifier.CreateNotification(first.recipient, first.notificationType, first.content, postId, userId, now);
      assert [first][..0] == [];
      assert notifier.notifications == Deliver(before, [first], postId, userId, now);
      var ms := OrEmptySeq(mentions);
      if mentions.Some? && mentions.value != [] {
        NotifyMentions(ms, userId, post.userId, name, postId, now);
      } else {
        assert MentionRequests(ms, userId, post.userId, name) == [];
      }
      DeliverAppend(before, [first], MentionRequests(ms, userId, post.userId, name), postId, userId, now);
      return Ok(saved);
    }

    /** The mention loop of createComment: one MENTION notification per listed id that is
        neither the commenter nor the post owner. */
    method NotifyMentions(ms: seq<string>, userId: string, owner: string, name: string, postId: string, now: int)
      modifies notifier
      ensures notifier.notifications ==
              Deliver(old(notifier.notifications), MentionRequests(ms, userId, owner, name), postId, userId, now)
    {
      ghost var before := notifier.notifications;
      for i := 0 to |ms|
        invariant notifier.notifications == Deliver(before, MentionRequests(ms[..i], userId, owner, name), postId, userId, now)
      {
        var m := ms[i];
        ghost var front := MentionRequests(ms[..i], userId, owner, name);
        MentionStep(ms, i, userId, owner, name);
        if m != userId && m != owner {
          ghost var req := Request(m, "MENTION", name + " mentioned you in a comment");
          DeliverSnoc(before, front, req, postId, userId, now);
          notifier.CreateNotification(m, "MENTION", name + " mentioned you in a comment", postId, userId, now);
        } else {
          assert front + [] == front;
        }
      }
      assert ms[..|ms|] == ms;
    }

    /** updateComment: only the author may change the content; the change stamps updatedAt. */
    method UpdateComment(commentId: string, userId: string, content: string, now: int) returns (r: Result<Comment>)
      modifies this
      ensures posts == old(posts) && users == old(users) && commentReactions == old(commentReactions)
      ensures r.Ok? <==> commentId in old(comments) && old(comments)[commentId].userId == userId
      ensures commentId !in old(comments) ==> r == Err(IllegalArgument("Comment not found"))
      ensures commentId in old(comments) && old(comments)[commentId].userId != userId ==>
                r == Err(IllegalArgument("You can only update your own comments"))
      ensures r.Err? ==> comments == old(comments)
      ensures r.Ok? ==> r.value == old(comments)[commentId].(content := content, updatedAt := Some(now))
                        && comments == old(comments)[commentId := r.value]
    {
      if commentId !in comments {
        return Err(IllegalArgument("Comment not found"));
      }
      var comment := comments[commentId];
      if comment.userId != userId {
        return Err(IllegalArgument("You can only update your own comments"));
      }
      comment := comment.(content := content, updatedAt := Some(now));
      comments := comments[commentId := comment];
      return Ok(comment);
    }

    /** deleteComment: an admin may delete any comment (its id leaves the post's list when the
        post still exists); anyone else must be the comment's author or the post's owner, and the
        post must exist. */
    method DeleteComment(commentId: string, userId: string, isAdmin: bool) returns (e: Option<Error>)
      modifies this
      ensures users == old(users) && commentReactions == old(commentReactions)
      ensures e.None? <==> MayDelete(old(comments), old(posts), commentId, userId, isAdmin)
      ensures commentId !in old(comments) ==> e == Some(IllegalArgument("Comment not found"))
      ensures commentId in old(comments) && !isAdmin && old(comments)[commentId].postId !in old(posts) ==>
                e == Some(IllegalArgument("Post not found"))
      ensures e.Some? ==> comments == old(comments) && posts == old(posts)
      ensures e.None? ==> comments == old(comments) - {commentId}
                          && posts == Detached(old(posts), old(comments)[commentId].postId, commentId)
    {
      if commentId !in comments {
        return Some(IllegalArgument("Comment not found"));
      }
      var comment := comments[commentId];
      if isAdmin {
        posts := Detached(posts, comment.postId, commentId);
        comments := comments - {commentId};
        return None;
      }
      if comment.postId !in posts {
        return Some(IllegalArgument("Post not found"));
      }
      var post := posts[comment.postId];
      if comment.userId != userId && post.userId != userId {
        return Some(IllegalArgument("You don't have permission to delete this comment"));
      }
      posts := posts[comment.postId := post.(comments := RemoveFirst(post.comments, commentId))];
      comments := comments - {commentId};
      return None;
    }

    /** reactToComment: the toggle, then the comment's like count and whether the caller now
        holds a reaction on it. */
    method ReactToComment(commentId: string, userId: string, reactionType: string, freshId: string)
      returns (r: Result<LikeSummary>)
      requires Valid()
      requires forall x :: x in commentReactions ==> x.id != freshId
      modifies this
      ensures Valid()
      ensures comments == old(comments) && posts == old(posts) && users == old(users)
      ensures commentId !in old(comments) ==>
                r == Err(IllegalArgument("Comment not found")) && commentReactions == old(commentReactions)
      ensures commentId in old(comments) ==>
                && commentReactions == Toggled(old(commentReactions), commentId, userId, reactionType, freshId)
                && r == Ok(LikeSummary(LikeCount(commentReactions, commentId),
                                       FindCommentReaction(commentReactions, commentId, userId).Some?))
                && r.value.userLiked == FindCommentReaction(old(commentReactions), commentId, userId).None?
    {
      if commentId !in comments {
        return Err(IllegalArgument("Comment not found"));
      }
      ToggleFlips(commentReactions, commentId, userId, reactionType, freshId);
      var existing := FindCommentReaction(commentReactions, commentId, userId);
      if existing.Some? {
        commentReactions := WithoutReactionId(commentReactions, existing.value.id);
      } else {
        commentReactions := commentReactions + [CommentReaction(freshId, commentId, userId, reactionType)];
      }
      var liked := FindCommentReaction(commentReactions, commentId, userId).Some?;
      return Ok(LikeSummary(LikeCount(commentReactions, commentId), liked));
    }
  }
}
