/** The group feed's post list: the posts the server answers with, one per id. Of several posts
    with the same id the latest one is kept (the first of equally late ones), the list keeps
    the order in which the ids first appear, and a kept shared post gets placeholder names for
    a missing original author or sharer. */
module GroupFeed {
  import opened Common

  /** The fields of a post object the de-duplication reads or writes; an absent, null or empty
      field is None or Some(""), and createdAt is a timestamp. */
  datatype FeedPost = FeedPost(
    id: string,
    createdAt: int,
    sharedFrom: Option<string>,
    originalUserId: Option<string>,
    originalUserName: Option<string>,
    sharedByUserId: Option<string>,
    sharedByUserName: Option<string>)

  /** JavaScript truthiness of an optional string: present and non-empty. */
  predicate Truthy(s: Option<string>) {
    s.Some? && s.value != ""
  }

  /** "User " followed by the first six characters of the id (all of it when shorter). */
  function Placeholder(userId: string): (name: string)
    ensures StartsWith(name, "User ") && |name| <= 11
    ensures name[5..] == userId[..if |userId| < 6 then |userId| else 6]
  {
    "User " + userId[..if |userId| < 6 then |userId| else 6]
  }

  /** The name fill applied to a post when it is kept: only shared posts are touched, and only a
      falsy name whose id is truthy is replaced. */
  function Named(p: FeedPost): (q: FeedPost)
    ensures q.id == p.id && q.createdAt == p.createdAt && q.sharedFrom == p.sharedFrom
    ensures q.originalUserId == p.originalUserId && q.sharedByUserId == p.sharedByUserId
    ensures q.originalUserName ==
              if Truthy(p.sharedFrom) && !Truthy(p.originalUserName) && Truthy(p.originalUserId)
              then Some(Placeholder(p.originalUserId.value)) else p.originalUserName
    ensures q.sharedByUserName ==
              if Truthy(p.sharedFrom) && !Truthy(p.sharedByUserName) && Truthy(p.sharedByUserId)
              then Some(Placeholder(p.sharedByUserId.value)) else p.sharedByUserName
    ensures !Truthy(p.sharedFrom) ==> q == p
  {
    if !Truthy(p.sharedFrom) then p
    else
      var p1 := if !Truthy(p.originalUserName) && Truthy(p.originalUserId)
                then p.(originalUserName := Some(Placeholder(p.originalUserId.value))) else p;
      if !Truthy(p1.sharedByUserName) && Truthy(p1.sharedByUserId)
      then p1.(sharedByUserName := Some(Placeholder(p1.sharedByUserId.value))) else p1
  }

  /** The ids of the posts, in input order. */
  function Ids(posts: seq<FeedPost>): (ids: seq<string>)
    ensures |ids| == |posts| && forall i :: 0 <= i < |posts| ==> ids[i] == posts[i].id
  {
    seq(|posts|, i requires 0 <= i < |posts| => posts[i].id)
  }

  /** The Map's key order: each id once, where it first appears. */
  function FirstIds(posts: seq<FeedPost>): seq<string> {
    if posts == [] then []
    else
      var prev := FirstIds(posts[..|posts| - 1]);
      var id := posts[|posts| - 1].id;
      if id in prev then prev else prev + [id]
  }

  /** The Map's entries after the forEach: an entry is (re)set, with the names filled, when the
      id is new or the stored post is strictly older. */
  function Kept(posts: seq<FeedPost>): map<string, FeedPost> {
    if posts == [] then map[]
    else
      var prev := Kept(posts[..|posts| - 1]);
      var p := posts[|posts| - 1];
      if p.id !in prev || prev[p.id].createdAt < p.createdAt then prev[p.id := Named(p)] else prev
  }

  /** Every id of the input is a key, and nothing else is; the key order names each key once. */
  lemma {:induction false} FirstIdsAndKept(posts: seq<FeedPost>)
    ensures forall id :: id in FirstIds(posts) <==> id in Ids(posts)
    ensures forall id :: id in Kept(posts) <==> id in Ids(posts)
    ensures Distinct(FirstIds(posts))
  {
    if posts != [] {
      var pre := posts[..|posts| - 1];
      FirstIdsAndKept(pre);
      assert Ids(posts) == Ids(pre) + [posts[|posts| - 1].id];
    }
  }

  /** The processed list: the kept post of every id, in key order. */
  function Processed(posts: seq<FeedPost>): (r: seq<FeedPost>)
    ensures |r| == |FirstIds(posts)|
    ensures forall k :: 0 <= k < |r| ==> FirstIds(posts)[k] in Kept(posts) && r[k] == Kept(posts)[FirstIds(posts)[k]]
  {
    FirstIdsAndKept(posts);
    seq(|FirstIds(posts)|, k requires 0 <= k < |FirstIds(posts)| => Kept(posts)[FirstIds(posts)[k]])
  }

  /** a occurs in the input before any occurrence of b. */
  predicate AppearsBefore(posts: seq<FeedPost>, a: string, b: string) {
    exists i :: 0 <= i < |posts| && posts[i].id == a && b !in Ids(posts[..i + 1])
  }

  /** The key order is the order of first appearance. */
  lemma {:induction false} FirstIdsInAppearanceOrder(posts: seq<FeedPost>)
    ensures forall k, l :: 0 <= k < l < |FirstIds(posts)| ==>
              AppearsBefore(posts, FirstIds(posts)[k], FirstIds(posts)[l])
  {
    if posts != [] {
      var pre := posts[..|posts| - 1];
      var q := posts[|posts| - 1];
      FirstIdsInAppearanceOrder(pre);
      FirstIdsAndKept(pre);
      var f := FirstIds(pre);
      forall k, l | 0 <= k < l < |FirstIds(posts)|
        ensures AppearsBefore(posts, FirstIds(posts)[k], FirstIds(posts)[l])
      {
        if l < |f| {
          assert AppearsBefore(pre, f[k], f[l]);
          var i :| 0 <= i < |pre| && pre[i].id == f[k] && f[l] !in Ids(pre[..i + 1]);
          assert pre[..i + 1] == posts[..i + 1];
        } else {
          assert q.id !in f && FirstIds(posts)[l] == q.id;
          assert f[k] in Ids(pre);
          var i :| 0 <= i < |pre| && Ids(pre)[i] == f[k];
          assert q.id !in Ids(pre[..i + 1]) by {
            assert Ids(pre[..i + 1]) == Ids(pre)[..i + 1];
          }
          assert pre[..i + 1] == posts[..i + 1];
        }
      }
    }
  }

  /** Post w is the one the feed keeps for id: it has that id, nothing with that id is later, and
      everything earlier with that id is strictly older. */
  predicate IsWinner(posts: seq<FeedPost>, id: string, w: int) {
    0 <= w < |posts| && posts[w].id == id
    && (forall i :: 0 <= i < |posts| && posts[i].id == id ==> posts[i].createdAt <= posts[w].createdAt)
    && (forall i :: 0 <= i < w && posts[i].id == id ==> posts[i].createdAt < posts[w].createdAt)
  }

  /** A later post with another id does not change who wins for id. */
  lemma WinnerAfterOther(pre: seq<FeedPost>, q: FeedPost, id: string, w: int)
    requires IsWinner(pre, id, w) && q.id != id
    ensures IsWinner(pre + [q], id, w)
  {
    var posts := pre + [q];
    forall i | 0 <= i < |posts| && posts[i].id == id ensures posts[i].createdAt <= posts[w].createdAt {
      assert posts[i] == pre[i];
    }
  }

  /** The first post with its id wins for it. */
  lemma WinnerFirstSeen(pre: seq<FeedPost>, q: FeedPost)
    requires q.id !in Ids(pre)
    ensures IsWinner(pre + [q], q.id, |pre|)
  {
    var posts := pre + [q];
    forall i | 0 <= i < |pre| ensures posts[i].id != q.id {
      assert posts[i].id == Ids(pre)[i];
    }
  }

  /** A strictly newer post with the id takes over. */
  lemma WinnerNewer(pre: seq<FeedPost>, q: FeedPost, w: int)
    requires IsWinner(pre, q.id, w) && pre[w].createdAt < q.createdAt
    ensures IsWinner(pre + [q], q.id, |pre|)
  {
    var posts := pre + [q];
    forall i | 0 <= i < |pre| && posts[i].id == q.id ensures posts[i].createdAt < q.createdAt {
      assert posts[i] == pre[i];
    }
  }

  /** A post with the id that is not strictly newer leaves the winner in place. */
  lemma WinnerStays(pre: seq<FeedPost>, q: FeedPost, w: int)
    requires IsWinner(pre, q.id, w) && q.createdAt <= pre[w].createdAt
    ensures IsWinner(pre + [q], q.id, w)
  {
    var posts := pre + [q];
    forall i | 0 <= i < |posts| && posts[i].id == q.id ensures posts[i].createdAt <= posts[w].createdAt {
      if i < |pre| {
        assert posts[i] == pre[i];
      }
    }
  }

  /** The kept post of every id is the named form of that id's latest post, the earliest of equally
      late ones. */
  lemma {:induction false} KeptIsWinner(posts: seq<FeedPost>, id: string)
    requires id in Kept(posts)
    ensures exists w :: IsWinner(posts, id, w) && Kept(posts)[id] == Named(posts[w])
  {
    var pre := posts[..|posts| - 1];
    var q := posts[|posts| - 1];
    assert posts == pre + [q];
    var prev := Kept(pre);
    FirstIdsAndKept(pre);
    if q.id != id {
      KeptIsWinner(pre, id);
      var w :| IsWinner(pre, id, w) && prev[id] == Named(pre[w]);
      WinnerAfterOther(pre, q, id, w);
      assert posts[w] == pre[w];
    } else if id !in prev {
      WinnerFirstSeen(pre, q);
    } else {
      KeptIsWinner(pre, id);
      var w :| IsWinner(pre, id, w) && prev[id] == Named(pre[w]);
      if prev[id].createdAt < q.createdAt {
        WinnerNewer(pre, q, w);
      } else {
        WinnerStays(pre, q, w);
        assert posts[w] == pre[w];
      }
    }
  }

  /** The processed list holds each id at most once, exactly the ids of the input, each entry
      being the winner for its id. */
  lemma ProcessedIsDeduplicated(posts: seq<FeedPost>)
    ensures Distinct(Ids(Processed(posts)))
    ensures forall id :: id in Ids(Processed(posts)) <==> id in Ids(posts)
    ensures forall k :: 0 <= k < |Processed(posts)| ==>
              exists w :: IsWinner(posts, Processed(posts)[k].id, w) && Processed(posts)[k] == Named(posts[w])
  {
    var r := Processed(posts);
    var f := FirstIds(posts);
    FirstIdsAndKept(posts);
    forall k | 0 <= k < |r|
      ensures r[k].id == f[k]
      ensures exists w :: IsWinner(posts, r[k].id, w) && r[k] == Named(posts[w])
    {
      KeptIsWinner(posts, f[k]);
    }
    assert Ids(r) == f;
  }

  /** The de-duplication loop: a Map from id to post filled by one pass over the answer, then its
      values in key order. */
  method Deduplicate(posts: seq<FeedPost>) returns (processed: seq<FeedPost>)
    ensures processed == Processed(posts)
  {
    var order: seq<string> := [];
    var kept: map<string, FeedPost> := map[];
    for i := 0 to |posts|
      invariant order == FirstIds(posts[..i]) && kept == Kept(posts[..i])
      invariant forall id :: id in kept <==> id in order
    {
      assert posts[..i + 1][..i] == posts[..i];
      FirstIdsAndKept(posts[..i]);
      var post := posts[i];
      if post.id !in kept || kept[post.id].createdAt < post.createdAt {
        post := Named(post);
        if post.id !in kept {
          order := order + [post.id];
        }
        kept := kept[post.id := post];
      }
    }
    assert posts[..|posts|] == posts;
    processed := seq(|order|, k requires 0 <= k < |order| => kept[order[k]]);
  }

  /** fetchGroupPosts' handling of the answer: a body that is not an array gives the empty list. */
  method ProcessResponse(data: Option<seq<FeedPost>>) returns (posts: seq<FeedPost>)
    ensures data.None? ==> posts == []
    ensures data.Some? ==> posts == Processed(data.value)
  {
    if data.None? {
      return [];
    }
    posts := Deduplicate(data.value);
  }
}
