/** The Post document: its fields, its two constructors and its helper methods.
    A Post is a value here: every service loads a copy from the repository, changes it and
    saves it back, so a helper that changes a field in place becomes a function from the old
    document to the new one. */
module PostModel {
  import opened Common

  datatype Post = Post(
    id: string,
    userId: string,
    content: Option<string>,
    videoUrl: Option<string>,
    imageUrls: seq<string>,
    mediaIds: Option<seq<string>>,
    mediaTypes: Option<map<string, string>>,
    likes: int,
    comments: seq<string>,
    createdAt: int,
    reactionCounts: map<string, int>)

  /** The no-argument constructor, followed by the id the repository assigns on save and the
      author the caller sets: every collection starts empty and the likes counter at zero. */
  function FreshPost(id: string, userId: string, now: int): (p: Post)
    ensures p.id == id && p.userId == userId && p.createdAt == now
    ensures p.likes == 0
    ensures p.content == None && p.videoUrl == None
    ensures p.imageUrls == [] && p.comments == []
    ensures p.mediaIds == Some([]) && p.mediaTypes == Some(map[])
    ensures p.reactionCounts == map[] && TotalReactionCount(p) == 0
  {
    Post(id, userId, None, None, [], Some([]), Some(map[]), 0, [], now, map[])
  }

  /** The value an optional collection takes in the full constructor: a null argument
      becomes an empty collection. */
  function OrEmptySeq(s: Option<seq<string>>): (r: seq<string>)
    ensures s.Some? ==> r == s.value
    ensures s.None? ==> r == []
  {
    if s.Some? then s.value else []
  }

  /** The full constructor: the list and map arguments that are null are replaced by empty
      ones, everything else is stored as given. */
  function FullPost(id: string, userId: string, content: Option<string>, videoUrl: Option<string>,
                    imageUrls: Option<seq<string>>, mediaIds: Option<seq<string>>,
                    mediaTypes: Option<map<string, string>>, likes: int,
                    comments: Option<seq<string>>, createdAt: int,
                    reactionCounts: Option<map<string, int>>): (p: Post)
    ensures p.id == id && p.userId == userId && p.content == content && p.videoUrl == videoUrl
    ensures p.likes == likes && p.createdAt == createdAt
    ensures p.imageUrls == OrEmptySeq(imageUrls) && p.comments == OrEmptySeq(comments)
    ensures p.mediaIds.Some? && p.mediaIds.value == OrEmptySeq(mediaIds)
    ensures p.mediaTypes.Some? && (mediaTypes.Some? ==> p.mediaTypes == mediaTypes)
    ensures mediaTypes.None? ==> p.mediaTypes == Some(map[])
    ensures reactionCounts.Some? ==> p.reactionCounts == reactionCounts.value
    ensures reactionCounts.None? ==> p.reactionCounts == map[]
  {
    Post(id, userId, content, videoUrl, OrEmptySeq(imageUrls), Some(OrEmptySeq(mediaIds)),
         Some(if mediaTypes.Some? then mediaTypes.value else map[]), likes,
         OrEmptySeq(comments), createdAt,
         if reactionCounts.Some? then reactionCounts.value else map[])
  }

  /** getTotalReactionCount: the sum of all values in the reaction-count map. */
  ghost function TotalReactionCount(p: Post): (total: int)
    ensures p.reactionCounts == map[] ==> total == 0
    ensures (forall t :: t in p.reactionCounts ==> p.reactionCounts[t] >= 0) ==>
              total >= 0 && forall t :: t in p.reactionCounts ==> p.reactionCounts[t] <= total
  {
    SumValuesBounds(p.reactionCounts);
    SumValues(p.reactionCounts)
  }

  /** addReactionCount: the count of one type grows by n (an absent type counts as 0);
      every other entry stays as it was. */
  function AddReactionCount(p: Post, reactionType: string, n: int): (q: Post)
    ensures q == p.(reactionCounts := q.reactionCounts)
    ensures q.reactionCounts.Keys == p.reactionCounts.Keys + {reactionType}
    ensures q.reactionCounts[reactionType] ==
            (if reactionType in p.reactionCounts then p.reactionCounts[reactionType] else 0) + n
    ensures forall t :: t in p.reactionCounts && t != reactionType ==>
              q.reactionCounts[t] == p.reactionCounts[t]
  {
    var before := if reactionType in p.reactionCounts then p.reactionCounts[reactionType] else 0;
    p.(reactionCounts := p.reactionCounts[reactionType := before + n])
  }

  /** Adding n to one type's count adds n to the total. */
  lemma TotalAfterAddReactionCount(p: Post, reactionType: string, n: int)
    ensures TotalReactionCount(AddReactionCount(p, reactionType, n)) == TotalReactionCount(p) + n
  {
    var m := p.reactionCounts;
    var before := if reactionType in m then m[reactionType] else 0;
    SumValuesUpdate(m, reactionType, before + n);
  }

  /** addMediaType: a null media-type map is first replaced by an empty one; then the media id
      is mapped to the type, and the other entries stay. */
  function AddMediaType(p: Post, mediaId: string, mediaType: string): (q: Post)
    ensures q == p.(mediaTypes := q.mediaTypes)
    ensures q.mediaTypes.Some?
    ensures mediaId in q.mediaTypes.value && q.mediaTypes.value[mediaId] == mediaType
    ensures p.mediaTypes.None? ==> q.mediaTypes.value.Keys == {mediaId}
    ensures p.mediaTypes.Some? ==> q.mediaTypes.value.Keys == p.mediaTypes.value.Keys + {mediaId}
    ensures p.mediaTypes.Some? ==> forall k :: k in p.mediaTypes.value && k != mediaId ==>
              q.mediaTypes.value[k] == p.mediaTypes.value[k]
  {
    var types := if p.mediaTypes.Some? then p.mediaTypes.value else map[];
    p.(mediaTypes := Some(types[mediaId := mediaType]))
  }
}
