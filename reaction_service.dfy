/** The reaction ledger: at most one reaction per (user, post), drawn from six types; sending
    the held type again withdraws it, sending another type replaces it, and after every change
    the post's per-type count map is recomputed from the reaction store.

    A reaction record is (id, userId, postId, type), the record the service evidently intends:
    the Reaction document and ReactionRepository shown beside the service lack the type field,
    the three-argument constructor and the finders the service calls. */
module ReactionLedger {
  import opened Common
  import opened PostModel

  /** The accepted reaction types, in the order the service lists them. */
  const ValidTypes: seq<string> := ["LIKE", "LOVE", "HAHA", "WOW", "SAD", "ANGRY"]

  datatype Reaction = Reaction(id: string, userId: string, postId: string, reactionType: string)

  predicate SamePair(x: Reaction, userId: string, postId: string) {
    x.userId == userId && x.postId == postId
  }

  /** The store invariant: no two reactions share a (user, post) pair. */
  predicate OnePerPair(rs: seq<Reaction>) {
    rs == [] || ((forall x :: x in rs[1..] ==> !SamePair(x, rs[0].userId, rs[0].postId)) && OnePerPair(rs[1..]))
  }

  /** Document ids are unique within the collection. */
  predicate DistinctIds(rs: seq<Reaction>) {
    rs == [] || ((forall x :: x in rs[1..] ==> x.id != rs[0].id) && DistinctIds(rs[1..]))
  }

  /** findByUserIdAndPostId. */
  function Find(rs: seq<Reaction>, userId: string, postId: string): (r: Option<Reaction>)
    ensures r.Some? ==> r.value in rs && SamePair(r.value, userId, postId)
    ensures r.None? <==> forall x :: x in rs ==> !SamePair(x, userId, postId)
  {
    if rs == [] then None
    else if SamePair(rs[0], userId, postId) then Some(rs[0])
    else Find(rs[1..], userId, postId)
  }

  /** deleteByUserIdAndPostId: every reaction of the pair goes, every other one stays in order. */
  function WithoutPair(rs: seq<Reaction>, userId: string, postId: string): (r: seq<Reaction>)
    ensures forall x :: x in r <==> x in rs && !SamePair(x, userId, postId)
    ensures Find(rs, userId, postId).None? ==> r == rs
    ensures |r| <= |rs|
  {
    if rs == [] then []
    else if SamePair(rs[0], userId, postId) then WithoutPair(rs[1..], userId, postId)
    else [rs[0]] + WithoutPair(rs[1..], userId, postId)
  }

  /** delete(entity): removes the document with the entity's id. */
  function WithoutId(rs: seq<Reaction>, id: string): (r: seq<Reaction>)
    ensures forall x :: x in r <==> x in rs && x.id != id
    ensures (forall x :: x in rs ==> x.id != id) ==> r == rs
  {
    if rs == [] then []
    else if rs[0].id == id then WithoutId(rs[1..], id)
    else [rs[0]] + WithoutId(rs[1..], id)
  }

  /** findByPostId. */
  function ByPost(rs: seq<Reaction>, postId: string): (r: seq<Reaction>)
    ensures forall x :: x in r <==> x in rs && x.postId == postId
  {
    if rs == [] then []
    else if rs[0].postId == postId then [rs[0]] + ByPost(rs[1..], postId)
    else ByPost(rs[1..], postId)
  }

  /** countByPostIdAndReactionType: the number of the post's reactions of one type. */
  function CountOf(rs: seq<Reaction>, postId: string, reactionType: string): (n: nat)
    ensures n <= |rs|
  {
    if rs == [] then 0
    else (if rs[0].postId == postId && rs[0].reactionType == reactionType then 1 else 0)
         + CountOf(rs[1..], postId, reactionType)
  }

  /** The count map the service stores on a post: exactly the six types, each with the number
      of the post's reactions of that type. */
  function ReactionCounts(rs: seq<Reaction>, postId: string): (m: map<string, int>)
    ensures m.Keys == set t | t in ValidTypes
    ensures forall t :: t in m ==> m[t] == CountOf(rs, postId, t) && m[t] >= 0
  {
    map t | t in ValidTypes :: CountOf(rs, postId, t)
  }

  /** The store after an accepted addReaction(userId, postId, t): the pair's reaction is
      withdrawn when it already has type t, otherwise it is replaced by (or becomes) a new
      reaction of type t with the id the repository generates. */
  function ApplyReaction(rs: seq<Reaction>, userId: string, postId: string, reactionType: string,
                         freshId: string): (r: seq<Reaction>)
    ensures var existing := Find(rs, userId, postId);
            existing.Some? && existing.value.reactionType == reactionType ==> Find(r, userId, postId).None?
    ensures var existing := Find(rs, userId, postId);
            !(existing.Some? && existing.value.reactionType == reactionType) ==>
              Find(r, userId, postId) == Some(Reaction(freshId, userId, postId, reactionType))
    ensures forall x :: !SamePair(x, userId, postId) ==> (x in r <==> x in rs)
  {
    var existing := Find(rs, userId, postId);
    var rest := WithoutPair(rs, userId, postId);
    if existing.Some? && existing.value.reactionType == reactionType then
      rest
    else
      var n := Reaction(freshId, userId, postId, reactionType);
      FindAppendAbsent(rest, [n], userId, postId);
      rest + [n]
  }

  /* ---------- Lemmas about the ledger ---------- */

  /** Deleting the found reaction by its id is deleting the pair, because the pair has at most
      one reaction and ids are unique. */
  lemma {:induction false} DeleteFoundIsWithoutPair(rs: seq<Reaction>, userId: string, postId: string)
    requires OnePerPair(rs) && DistinctIds(rs)
    requires Find(rs, userId, postId).Some?
    ensures WithoutId(rs, Find(rs, userId, postId).value.id) == WithoutPair(rs, userId, postId)
  {
    var x := Find(rs, userId, postId).value;
    if SamePair(rs[0], userId, postId) {
      assert x == rs[0];
      assert Find(rs[1..], userId, postId).None?;
    } else {
      assert x in rs[1..];
      DeleteFoundIsWithoutPair(rs[1..], userId, postId);
    }
  }

  lemma {:induction false} WithoutPairAppend(rs: seq<Reaction>, ts: seq<Reaction>, userId: string, postId: string)
    ensures WithoutPair(rs + ts, userId, postId) == WithoutPair(rs, userId, postId) + WithoutPair(ts, userId, postId)
  {
    if rs == [] {
      assert rs + ts == ts;
    } else {
      var all := rs + ts;
      assert all[0] == rs[0] && all[1..] == rs[1..] + ts;
      WithoutPairAppend(rs[1..], ts, userId, postId);
      if SamePair(rs[0], userId, postId) {
        calc {
          WithoutPair(all, userId, postId);
          WithoutPair(rs[1..] + ts, userId, postId);
          WithoutPair(rs[1..], userId, postId) + WithoutPair(ts, userId, postId);
          WithoutPair(rs, userId, postId) + WithoutPair(ts, userId, postId);
        }
      } else {
        calc {
          WithoutPair(all, userId, postId);
          [rs[0]] + WithoutPair(rs[1..] + ts, userId, postId);
          [rs[0]] + (WithoutPair(rs[1..], userId, postId) + WithoutPair(ts, userId, postId));
          ([rs[0]] + WithoutPair(rs[1..], userId, postId)) + WithoutPair(ts, userId, postId);
          WithoutPair(rs, userId, postId) + WithoutPair(ts, userId, postId);
        }
      }
    }
  }

  lemma {:induction false} OnePerPairWithout(rs: seq<Reaction>, userId: string, postId: string)
    requires OnePerPair(rs)
    ensures OnePerPair(WithoutPair(rs, userId, postId))
  {
    if rs != [] {
      OnePerPairWithout(rs[1..], userId, postId);
    }
  }

  lemma {:induction false} DistinctIdsWithout(rs: seq<Reaction>, userId: string, postId: string)
    requires DistinctIds(rs)
    ensures DistinctIds(WithoutPair(rs, userId, postId))
  {
    if rs != [] {
      DistinctIdsWithout(rs[1..], userId, postId);
    }
  }

  /** Appending a reaction keeps the pair invariant when its pair is not yet present. */
  lemma {:induction false} OnePerPairSnoc(rs: seq<Reaction>, x: Reaction)
    requires OnePerPair(rs)
    requires Find(rs, x.userId, x.postId).None?
    ensures OnePerPair(rs + [x])
  {
    if rs != [] {
      assert (rs + [x])[1..] == rs[1..] + [x];
      OnePerPairSnoc(rs[1..], x);
    }
  }

  lemma {:induction false} DistinctIdsSnoc(rs: seq<Reaction>, x: Reaction)
    requires DistinctIds(rs)
    requires forall y :: y in rs ==> y.id != x.id
    ensures DistinctIds(rs + [x])
  {
    if rs != [] {
      assert (rs + [x])[1..] == rs[1..] + [x];
      DistinctIdsSnoc(rs[1..], x);
    }
  }

  /** Every accepted addReaction keeps at most one reaction per (user, post) and unique ids. */
  lemma ApplyReactionKeepsInvariant(rs: seq<Reaction>, userId: string, postId: string,
                                    reactionType: string, freshId: string)
    requires OnePerPair(rs) && DistinctIds(rs)
    requires forall x :: x in rs ==> x.id != freshId
    ensures OnePerPair(ApplyReaction(rs, userId, postId, reactionType, freshId))
    ensures DistinctIds(ApplyReaction(rs, userId, postId, reactionType, freshId))
  {
    var w := WithoutPair(rs, userId, postId);
    OnePerPairWithout(rs, userId, postId);
    DistinctIdsWithout(rs, userId, postId);
    var x := Reaction(freshId, userId, postId, reactionType);
    OnePerPairSnoc(w, x);
    DistinctIdsSnoc(w, x);
  }

  /** Toggle law: when the user holds no reaction on the post, sending the same type twice
      restores the store exactly, and with it every count. */
  lemma ToggleTwiceRestores(rs: seq<Reaction>, userId: string, postId: string, reactionType: string,
                            id1: string, id2: string)
    requires Find(rs, userId, postId).None?
    ensures ApplyReaction(ApplyReaction(rs, userId, postId, reactionType, id1),
                          userId, postId, reactionType, id2) == rs
    ensures ReactionCounts(ApplyReaction(ApplyReaction(rs, userId, postId, reactionType, id1),
                                         userId, postId, reactionType, id2), postId)
            == ReactionCounts(rs, postId)
  {
    var x := Reaction(id1, userId, postId, reactionType);
    var rs1 := ApplyReaction(rs, userId, postId, reactionType, id1);
    assert rs1 == rs + [x];
    FindAppendAbsent(rs, [x], userId, postId);
    WithoutPairAppend(rs, [x], userId, postId);
    assert WithoutPair([x], userId, postId) == [];
  }

  lemma {:induction false} FindAppendAbsent(rs: seq<Reaction>, ts: seq<Reaction>, userId: string, postId: string)
    requires Find(rs, userId, postId).None?
    ensures Find(rs + ts, userId, postId) == Find(ts, userId, postId)
  {
    if rs == [] {
      assert rs + ts == ts;
    } else {
      assert (rs + ts)[1..] == rs[1..] + ts;
      FindAppendAbsent(rs[1..], ts, userId, postId);
    }
  }

  /** Withdrawing the pair's reaction lowers the count of its type by one and leaves the other
      counts alone. */
  lemma {:induction false} CountWithoutPair(rs: seq<Reaction>, userId: string, postId: string,
                                            p: string, t: string)
    requires OnePerPair(rs)
    ensures var f := Find(rs, userId, postId);
            CountOf(WithoutPair(rs, userId, postId), p, t) ==
            CountOf(rs, p, t) - (if f.Some? && f.value.postId == p && f.value.reactionType == t then 1 else 0)
  {
    if rs != [] {
      if SamePair(rs[0], userId, postId) {
        assert Find(rs[1..], userId, postId).None?;
      } else {
        CountWithoutPair(rs[1..], userId, postId, p, t);
      }
    }
  }

  lemma {:induction false} CountSnoc(rs: seq<Reaction>, x: Reaction, p: string, t: string)
    ensures CountOf(rs + [x], p, t) == CountOf(rs, p, t) + (if x.postId == p && x.reactionType == t then 1 else 0)
  {
    if rs == [] {
      assert rs + [x] == [x];
    } else {
      assert (rs + [x])[1..] == rs[1..] + [x];
      CountSnoc(rs[1..], x, p, t);
    }
  }

  /** The number of reactions a (user, post) pair holds. */
  function PairCount(rs: seq<Reaction>, userId: string, postId: string): (n: nat)
    ensures n == 0 <==> Find(rs, userId, postId).None?
  {
    if rs == [] then 0
    else (if SamePair(rs[0], userId, postId) then 1 else 0) + PairCount(rs[1..], userId, postId)
  }

  lemma {:induction false} PairCountSnoc(rs: seq<Reaction>, x: Reaction, userId: string, postId: string)
    ensures PairCount(rs + [x], userId, postId) == PairCount(rs, userId, postId) + (if SamePair(x, userId, postId) then 1 else 0)
  {
    if rs == [] {
      assert rs + [x] == [x];
    } else {
      assert (rs + [x])[1..] == rs[1..] + [x];
      PairCountSnoc(rs[1..], x, userId, postId);
    }
  }

  /** Replace: with a reaction of type a held and b != a requested, the pair afterwards holds
      exactly one reaction, of type b; count(a) drops by one and count(b) grows by one. */
  lemma ReplaceKeepsOneReaction(rs: seq<Reaction>, userId: string, postId: string, b: string, freshId: string)
    requires OnePerPair(rs)
    requires Find(rs, userId, postId).Some? && Find(rs, userId, postId).value.reactionType != b
    ensures var rs' := ApplyReaction(rs, userId, postId, b, freshId);
            var a := Find(rs, userId, postId).value.reactionType;
            && PairCount(rs', userId, postId) == 1
            && Find(rs', userId, postId) == Some(Reaction(freshId, userId, postId, b))
            && CountOf(rs', postId, a) == CountOf(rs, postId, a) - 1
            && CountOf(rs', postId, b) == CountOf(rs, postId, b) + 1
            && forall t :: t != a && t != b ==> CountOf(rs', postId, t) == CountOf(rs, postId, t)
  {
    var w := WithoutPair(rs, userId, postId);
    var x := Reaction(freshId, userId, postId, b);
    var a := Find(rs, userId, postId).value.reactionType;
    assert Find(w, userId, postId).None?;
    PairCountSnoc(w, x, userId, postId);
    FindAppendAbsent(w, [x], userId, postId);
    CountWithoutPair(rs, userId, postId, postId, a);
    CountSnoc(w, x, postId, a);
    CountWithoutPair(rs, userId, postId, postId, b);
    CountSnoc(w, x, postId, b);
    forall t | t != a && t != b
      ensures CountOf(w + [x], postId, t) == CountOf(rs, postId, t)
    {
      CountWithoutPair(rs, userId, postId, postId, t);
      CountSnoc(w, x, postId, t);
    }
  }

  /** Counting the post's reactions over findByPostId gives the same numbers as over the store. */
  lemma {:induction false} CountByPost(rs: seq<Reaction>, postId: string, t: string)
    ensures CountOf(ByPost(rs, postId), postId, t) == CountOf(rs, postId, t)
  {
    if rs != [] {
      CountByPost(rs[1..], postId, t);
    }
  }

  /** The count map updatePostReactionCounts starts from: each of the six types at zero. */
  method ZeroCounts() returns (counts: map<string, int>)
    ensures counts.Keys == set t | t in ValidTypes
    ensures forall t :: t in counts ==> counts[t] == 0
  {
    counts := map[];
    for i := 0 to |ValidTypes|
      invariant counts.Keys == set t | t in ValidTypes[..i]
      invariant forall t :: t in counts ==> counts[t] == 0
    {
      assert ValidTypes[..i + 1] == ValidTypes[..i] + [ValidTypes[i]];
      counts := counts[ValidTypes[i] := 0];
    }
    assert ValidTypes[..|ValidTypes|] == ValidTypes;
  }

  /** The loop of updatePostReactionCounts: over the post's reactions, each one adds one to
      its type's entry (a type outside the six is skipped). The result is the count map. */
  method TallyPostReactions(rs: seq<Reaction>, postId: string) returns (counts: map<string, int>)
    ensures counts == ReactionCounts(rs, postId)
  {
    counts := ZeroCounts();
    var found := ByPost(rs, postId);
    for j := 0 to |found|
      invariant counts.Keys == set t | t in ValidTypes
      invariant forall t :: t in counts ==> counts[t] == CountOf(found[..j], postId, t)
    {
      var reactionType := found[j].reactionType;
      assert found[..j + 1] == found[..j] + [found[j]];
      forall t ensures CountOf(found[..j + 1], postId, t) ==
                       CountOf(found[..j], postId, t) + (if reactionType == t then 1 else 0) {
        CountSnoc(found[..j], found[j], postId, t);
      }
      if reactionType in counts {
        counts := counts[reactionType := counts[reactionType] + 1];
      }
    }
    assert found[..|found|] == found;
    forall t | t in counts ensures counts[t] == CountOf(rs, postId, t) {
      CountByPost(rs, postId, t);
    }
  }

  /** The reaction service over its two repositories. */
  class ReactionService {
    var reactions: seq<Reaction>
    var posts: map<string, Post>

    ghost predicate Valid()
      reads this
    {
      OnePerPair(reactions) && DistinctIds(reactions)
    }

    constructor (initialPosts: map<string, Post>)
      ensures Valid() && reactions == [] && posts == initialPosts
    {
      reactions := [];
      posts := initialPosts;
    }

    /** The count refresh that follows every change: the post's count map becomes the six
        per-type counts over the reaction store; a missing post raises IllegalArgument and
        changes nothing. */
    ghost predicate CountsRefreshed(before: map<string, Post>, postId: string)
      reads this
    {
      if postId in before then
        posts == before[postId := before[postId].(reactionCounts := ReactionCounts(reactions, postId))]
      else
        posts == before
    }

    /** updatePostReactionCounts. */
    method UpdatePostReactionCounts(postId: string) returns (e: Option<Error>)
      modifies this
      ensures reactions == old(reactions)
      ensures CountsRefreshed(old(posts), postId)
      ensures e.None? <==> postId in old(posts)
      ensures e.Some? ==> e.value == IllegalArgument("Post not found with ID: " + postId)
    {
      if postId !in posts {
        return Some(IllegalArgument("Post not found with ID: " + postId));
      }
      var post := posts[postId];
      var counts := TallyPostReactions(reactions, postId);
      posts := posts[postId := post.(reactionCounts := counts)];
      return None;
    }

    /** addReaction. The reaction change is made before the count refresh, so a missing post
        still raises after the store has changed; nothing rolls it back. */
    method AddReaction(userId: Option<string>, postId: Option<string>, reactionType: Option<string>,
                       freshId: string) returns (r: Result<Option<Reaction>>)
      requires Valid()
      requires forall x :: x in reactions ==> x.id != freshId
      modifies this
      ensures Valid()
      ensures userId.None? || postId.None? || reactionType.None? ==>
                r == Err(IllegalArgument("userId, postId, and reactionType are required"))
                && reactions == old(reactions) && posts == old(posts)
      ensures userId.Some? && postId.Some? && reactionType.Some? && reactionType.value !in ValidTypes ==>
                r == Err(IllegalArgument("Invalid reaction type: " + reactionType.value))
                && reactions == old(reactions) && posts == old(posts)
      ensures userId.Some? && postId.Some? && reactionType.Some? && reactionType.value in ValidTypes ==>
                var (u, p, t) := (userId.value, postId.value, reactionType.value);
                var existing := Find(old(reactions), u, p);
                && reactions == ApplyReaction(old(reactions), u, p, t, freshId)
                && CountsRefreshed(old(posts), p)
                && r == if p !in old(posts) then Err(IllegalArgument("Post not found with ID: " + p))
                        else if existing.Some? && existing.value.reactionType == t then Ok(None)
                        else Ok(Some(Reaction(freshId, u, p, t)))
    {
      if userId.None? || postId.None? || reactionType.None? {
        return Err(IllegalArgument("userId, postId, and reactionType are required"));
      }
      var u, p, t := userId.value, postId.value, reactionType.value;
      if t !in ValidTypes {
        return Err(IllegalArgument("Invalid reaction type: " + t));
      }
      ghost var before := reactions;
      ApplyReactionKeepsInvariant(before, u, p, t, freshId);
      var existing := Find(reactions, u, p);
      if existing.Some? {
        DeleteFoundIsWithoutPair(reactions, u, p);
        if existing.value.reactionType == t {
          reactions := WithoutId(reactions, existing.value.id);
          var e := UpdatePostReactionCounts(p);
          if e.Some? {
            return Err(e.value);
          }
          return Ok(None);
        }
        reactions := WithoutId(reactions, existing.value.id);
      }
      var reaction := Reaction(freshId, u, p, t);
      reactions := reactions + [reaction];
      var e := UpdatePostReactionCounts(p);
      if e.Some? {
        return Err(e.value);
      }
      return Ok(Some(reaction));
    }

    /** removeReaction: deletes the pair's reaction, if any (no error when there is none), then
        refreshes the counts. */
    method RemoveReaction(userId: string, postId: string) returns (e: Option<Error>)
      requires Valid()
      modifies this
      ensures Valid()
      ensures reactions == WithoutPair(old(reactions), userId, postId)
      ensures Find(old(reactions), userId, postId).None? ==> reactions == old(reactions)
      ensures CountsRefreshed(old(posts), postId)
      ensures e.None? <==> postId in old(posts)
    {
      OnePerPairWithout(reactions, userId, postId);
      DistinctIdsWithout(reactions, userId, postId);
      reactions := WithoutPair(reactions, userId, postId);
      e := UpdatePostReactionCounts(postId);
    }

    /** getReactionCounts: a map over exactly the six types, each with the post's count. */
    method GetReactionCounts(postId: Option<string>) returns (r: Result<map<string, int>>)
      ensures postId.None? ==> r == Err(IllegalArgument("postId is required"))
      ensures postId.Some? ==> r.Ok? && r.value.Keys == set t | t in ValidTypes
      ensures postId.Some? ==> forall t :: t in ValidTypes ==> r.value[t] == CountOf(reactions, postId.value, t)
    {
      if postId.None? {
        return Err(IllegalArgument("postId is required"));
      }
      var counts: map<string, int> := map[];
      for i := 0 to |ValidTypes|
        invariant counts.Keys == set t | t in ValidTypes[..i]
      {
        assert ValidTypes[..i + 1] == ValidTypes[..i] + [ValidTypes[i]];
        counts := counts[ValidTypes[i] := 0];
      }
      assert ValidTypes[..|ValidTypes|] == ValidTypes;
      for i := 0 to |ValidTypes|
        invariant counts.Keys == set t | t in ValidTypes
        invariant forall k :: 0 <= k < i ==> counts[ValidTypes[k]] == CountOf(reactions, postId.value, ValidTypes[k])
      {
        counts := counts[ValidTypes[i] := CountOf(reactions, postId.value, ValidTypes[i])];
      }
      return Ok(counts);
    }

    /** getUserReaction: the pair's reaction, if the user holds one on the post. */
    method GetUserReaction(userId: Option<string>, postId: Option<string>) returns (r: Result<Option<Reaction>>)
      ensures userId.None? || postId.None? ==> r == Err(IllegalArgument("Both userId and postId are required"))
      ensures userId.Some? && postId.Some? ==> r == Ok(Find(reactions, userId.value, postId.value))
      ensures r.Ok? && r.value.Some? ==> r.value.value in reactions && SamePair(r.value.value, userId.value, postId.value)
      ensures r.Ok? && r.value.None? ==> forall x :: x in reactions ==> !SamePair(x, userId.value, postId.value)
    {
      if userId.None? || postId.None? {
        return Err(IllegalArgument("Both userId and postId are required"));
      }
      return Ok(Find(reactions, userId.value, postId.value));
    }
  }
}
