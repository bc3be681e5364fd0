/** Post creation, update and deletion: the guard on an empty post, the video checks, the image
    content-type check, the media-id list (video first, then images) and the URLs built from it,
    and the owner-only update and delete with their media clean-up.

    Media storage is a set of stored media ids. An upload stores the file under the next id of a
    caller-supplied list of fresh ids; a delete removes an id unless it is listed as failing,
    and a failure is ignored, as the service's catch blocks do. */
module Posts {
  import opened Common
  import opened PostModel

  /** An uploaded file as the service sees it: the declared content type (possibly null) and
      the size in bytes; a file of size zero is empty. */
  datatype Upload = Upload(contentType: Option<string>, size: nat)

  const MaxVideoSizeMb: int := 15
  const AllowedVideoTypes: seq<string> := ["video/mp4", "video/quicktime"]

  /** The create guard: a post needs a video object, a non-empty image list or non-empty content. */
  predicate HasMaterial(content: Option<string>, images: Option<seq<Upload>>, video: Option<Upload>) {
    video.Some? || (images.Some? && images.value != []) || (content.Some? && content.value != [])
  }

  /** A video is uploaded only when it is present and not empty. */
  predicate HasVideo(video: Option<Upload>) {
    video.Some? && video.value.size > 0
  }

  /** validateVideo. A null content type reaches List.contains, which throws a
      NullPointerException for an immutable list. */
  function ValidateVideo(video: Upload): (e: Option<Error>)
    ensures e.None? <==> video.contentType.Some? && video.contentType.value in AllowedVideoTypes
                         && video.size <= 15 * 1024 * 1024
    ensures video.contentType.None? ==> e == Some(Runtime("NullPointerException"))
    ensures video.contentType.Some? && video.contentType.value !in AllowedVideoTypes ==>
              e == Some(IllegalArgument("Invalid video format. Allowed formats: video/mp4, video/quicktime"))
    ensures video.contentType.Some? && video.contentType.value in AllowedVideoTypes && video.size > 15 * 1024 * 1024 ==>
              e == Some(IllegalArgument("Video size must be less than 15MB"))
  {
    if video.contentType.None? then Some(Runtime("NullPointerException"))
    else if video.contentType.value !in AllowedVideoTypes then
      Some(IllegalArgument("Invalid video format. Allowed formats: video/mp4, video/quicktime"))
    else if video.size > MaxVideoSizeMb * 1024 * 1024 then
      Some(IllegalArgument("Video size must be less than 15MB"))
    else None
  }

  /** The image check: the content type must start with "image/". */
  predicate ImageAccepted(image: Upload) {
    image.contentType.Some? && StartsWith(image.contentType.value, "image/")
  }

  /** What a rejected image throws: a null content type fails on startsWith. */
  function ImageError(image: Upload): (e: Error)
    ensures image.contentType.None? <==> e.Runtime?
    ensures image.contentType.None? ==> e == Runtime("NullPointerException")
    ensures image.contentType.Some? ==> e == IllegalArgument("Only image files are supported")
  {
    if image.contentType.None? then Runtime("NullPointerException")
    else IllegalArgument("Only image files are supported")
  }

  /** Position of the first rejected image (the list length when all are accepted). */
  function FirstRejected(images: seq<Upload>): (k: nat)
    ensures k <= |images|
    ensures forall i :: 0 <= i < k ==> ImageAccepted(images[i])
    ensures k < |images| ==> !ImageAccepted(images[k])
  {
    if images == [] then 0
    else if !ImageAccepted(images[0]) then 0
    else 1 + FirstRejected(images[1..])
  }

  /** The stream that maps media ids to download URLs. */
  function MediaUrls(ids: seq<string>): (urls: seq<string>)
    ensures |urls| == |ids|
    ensures forall i :: 0 <= i < |ids| ==> urls[i] == MediaUrl(ids[i])
  {
    seq(|ids|, i requires 0 <= i < |ids| => MediaUrl(ids[i]))
  }

  /** Distinct media ids give distinct URLs. */
  lemma MediaUrlsDistinct(ids: seq<string>)
    requires Distinct(ids)
    ensures Distinct(MediaUrls(ids))
  {
    var urls := MediaUrls(ids);
    forall i, j | 0 <= i < j < |ids| ensures urls[i] != urls[j] {
      assert urls[i][|MediaPrefix|..] == ids[i];
      assert urls[j][|MediaPrefix|..] == ids[j];
    }
  }

  /** The post createPost saves, given the stored video id (if a video was uploaded) and the
      stored image ids (when an image list was given). */
  function CreatedPost(postId: string, userId: string, content: Option<string>, videoId: Option<string>,
                       imageIds: seq<string>, imagesGiven: bool, now: int): (p: Post)
    ensures p.id == postId && p.userId == userId && p.content == content && p.createdAt == now
    ensures p.likes == 0 && p.comments == [] && p.reactionCounts == map[]
    ensures videoId.Some? ==> p.videoUrl == Some(MediaUrl(videoId.value))
    ensures videoId.None? ==> p.videoUrl.None?
    ensures p.mediaIds.Some?
    ensures videoId.Some? ==> p.mediaIds.value == [videoId.value] + imageIds
    ensures videoId.None? ==> p.mediaIds.value == imageIds
    ensures imagesGiven ==> p.imageUrls == MediaUrls(p.mediaIds.value)
    ensures !imagesGiven ==> p.imageUrls == []
    ensures imagesGiven && videoId.Some? ==> MediaUrl(videoId.value) in p.imageUrls
  {
    var ids := (if videoId.Some? then [videoId.value] else []) + imageIds;
    var p := FreshPost(postId, userId, now).(
      content := content,
      videoUrl := if videoId.Some? then Some(MediaUrl(videoId.value)) else None,
      mediaIds := Some(ids),
      imageUrls := if imagesGiven then MediaUrls(ids) else []);
    assert imagesGiven && videoId.Some? ==> p.imageUrls[0] == MediaUrl(videoId.value);
    p
  }

  /** The post updatePost saves: new content always; with a non-empty image list the media ids
      and URLs become those of the new images, otherwise both stay. */
  function UpdatedPost(p: Post, content: Option<string>, newIds: seq<string>, imagesGiven: bool): (q: Post)
    ensures q.id == p.id && q.userId == p.userId && q.likes == p.likes && q.comments == p.comments
    ensures q.videoUrl == p.videoUrl && q.createdAt == p.createdAt && q.reactionCounts == p.reactionCounts
    ensures q.content == content
    ensures imagesGiven ==> q.mediaIds == Some(newIds) && q.imageUrls == MediaUrls(newIds)
    ensures !imagesGiven ==> q.mediaIds == Some(OrEmptySeq(p.mediaIds)) && q.imageUrls == p.imageUrls
  {
    if imagesGiven then p.(content := content, mediaIds := Some(newIds), imageUrls := MediaUrls(newIds))
    else p.(content := content, mediaIds := Some(OrEmptySeq(p.mediaIds)))
  }

  /** The ids of a list, as a set. */
  function IdSet(s: seq<string>): (r: set<string>)
    ensures forall x :: x in r <==> x in s
  {
    set x | x in s
  }

  function ImagesOf(images: Option<seq<Upload>>): seq<Upload> {
    if images.Some? then images.value else []
  }

  /** The post service over the post repository and the media store. */
  class PostService {
    var posts: map<string, Post>
    var media: set<string>

    constructor (posts: map<string, Post>, media: set<string>)
      ensures this.posts == posts && this.media == media
    {
      this.posts := posts;
      this.media := media;
    }

    /** The image loop shared by createPost and updatePost: each image is checked and then
        stored under the next fresh id; the first rejected image stops the loop with the images
        before it already stored. */
    method UploadImages(images: seq<Upload>, ids: seq<string>) returns (uploaded: seq<string>, err: Option<Error>)
      requires |ids| >= |images|
      modifies this
      ensures posts == old(posts)
      ensures uploaded == ids[..FirstRejected(images)]
      ensures media == old(media) + IdSet(uploaded)
      ensures err.Some? <==> FirstRejected(images) < |images|
      ensures err.Some? ==> err.value == ImageError(images[FirstRejected(images)])
    {
      uploaded := [];
      for i := 0 to |images|
        invariant uploaded == ids[..i]
        invariant media == old(media) + IdSet(uploaded)
        invariant forall j :: 0 <= j < i ==> ImageAccepted(images[j])
        invariant posts == old(posts)
      {
        if !ImageAccepted(images[i]) {
          return uploaded, Some(ImageError(images[i]));
        }
        assert ids[..i + 1] == ids[..i] + [ids[i]];
        media := media + {ids[i]};
        uploaded := uploaded + [ids[i]];
      }
      return uploaded, None;
    }

    /** The media clean-up loop of deletePost and updatePost: every id is deleted, and a delete
        that fails is logged and skipped. */
    method DeleteMedia(ids: seq<string>, failing: set<string>)
      modifies this
      ensures posts == old(posts)
      ensures media == old(media) - (IdSet(ids) - failing)
    {
      for i := 0 to |ids|
        invariant media == old(media) - (IdSet(ids[..i]) - failing)
        invariant posts == old(posts)
      {
        assert ids[..i + 1] == ids[..i] + [ids[i]];
        if ids[i] !in failing {
          media := media - {ids[i]};
        }
      }
      assert ids[..|ids|] == ids;
    }

    /** createPost. */
    method CreatePost(userId: string, content: Option<string>, images: Option<seq<Upload>>, video: Option<Upload>,
                      postId: string, ids: seq<string>, now: int) returns (r: Result<Post>)
      requires postId !in posts
      requires |ids| >= 1 + |ImagesOf(images)|
      modifies this
      ensures !HasMaterial(content, images, video) ==>
                r == Err(IllegalArgument("Post must have content, images, or a video"))
                && posts == old(posts) && media == old(media)
      ensures HasMaterial(content, images, video) && HasVideo(video) && ValidateVideo(video.value).Some? ==>
                r == Err(ValidateVideo(video.value).value) && posts == old(posts) && media == old(media)
      ensures HasMaterial(content, images, video) && (HasVideo(video) ==> ValidateVideo(video.value).None?) ==>
                var nv := if HasVideo(video) then 1 else 0;
                var imgs := ImagesOf(images);
                var k := FirstRejected(imgs);
                && media == old(media) + IdSet(ids[..nv + k])
                && (k < |imgs| ==> r == Err(ImageError(imgs[k])) && posts == old(posts))
                && (k == |imgs| ==>
                      r == Ok(CreatedPost(postId, userId, content, if nv == 1 then Some(ids[0]) else None,
                                          ids[nv..nv + k], imgs != [], now))
                      && posts == old(posts)[postId := r.value])
    {
      if !(video.Some? || (images.Some? && images.value != []) || (content.Some? && content.value != [])) {
        return Err(IllegalArgument("Post must have content, images, or a video"));
      }
      var videoId: Option<string> := None;
      if video.Some? && video.value.size > 0 {
        var invalid := ValidateVideo(video.value);
        if invalid.Some? {
          return Err(invalid.value);
        }
        media := media + {ids[0]};
        videoId := Some(ids[0]);
      }
      ghost var k := FirstRejected(ImagesOf(images));
      ghost var nv := if videoId.Some? then 1 else 0;
      assert IdSet(ids[..nv + k]) == (if videoId.Some? then {ids[0]} else {}) + IdSet(ids[nv..nv + k]) by {
        assert ids[..nv + k] == ids[..nv] + ids[nv..nv + k];
      }
      r := StoreNewPost(userId, content, images, videoId, postId, ids, now);
    }

    /** The part of createPost after the video: the image loop, then the save. */
    method StoreNewPost(userId: string, content: Option<string>, images: Option<seq<Upload>>, videoId: Option<string>,
                        postId: string, ids: seq<string>, now: int) returns (r: Result<Post>)
      requires postId !in posts
      requires videoId.Some? ==> |ids| >= 1 && videoId.value == ids[0]
      requires |ids| >= (if videoId.Some? then 1 else 0) + |ImagesOf(images)|
      modifies this
      ensures var nv := if videoId.Some? then 1 else 0;
              var imgs := ImagesOf(images);
              var k := FirstRejected(imgs);
              && media == old(media) + IdSet(ids[nv..nv + k])
              && (k < |imgs| ==> r == Err(ImageError(imgs[k])) && posts == old(posts))
              && (k == |imgs| ==>
                    r == Ok(CreatedPost(postId, userId, content, videoId, ids[nv..nv + k], imgs != [], now))
                    && posts == old(posts)[postId := r.value])
    {
      var nv := if videoId.Some? then 1 else 0;
      var imageIds: seq<string> := [];
      var imagesGiven := images.Some? && images.value != [];
      if imagesGiven {
        var err;
        imageIds, err := UploadImages(images.value, ids[nv..]);
        assert ids[nv..][..|imageIds|] == ids[nv..nv + |imageIds|];
        if err.Some? {
          return Err(err.value);
        }
      }
      var post := CreatedPost(postId, userId, content, videoId, imageIds, imagesGiven, now);
      posts := posts[postId := post];
      return Ok(post);
    }

    /** deletePost: the owner's post goes, together with its media; a media delete that fails is
        skipped and the post is deleted anyway. */
    method DeletePost(postId: string, userId: string, failing: set<string>) returns (e: Option<Error>)
      modifies this
      ensures postId !in old(posts) ==> e == Some(IllegalArgument("Post not found"))
      ensures postId in old(posts) && old(posts)[postId].userId != userId ==>
                e == Some(IllegalArgument("You can only delete your own posts"))
      ensures e.None? <==> postId in old(posts) && old(posts)[postId].userId == userId
      ensures e.Some? ==> posts == old(posts) && media == old(media)
      ensures e.None? ==> posts == old(posts) - {postId}
                          && media == old(media) - (IdSet(OrEmptySeq(old(posts)[postId].mediaIds)) - failing)
    {
      if postId !in posts {
        return Some(IllegalArgument("Post not found"));
      }
      var post := posts[postId];
      if post.userId != userId {
        return Some(IllegalArgument("You can only delete your own posts"));
      }
      if post.mediaIds.Some? {
        DeleteMedia(post.mediaIds.value, failing);
      } else {
        assert IdSet(OrEmptySeq(post.mediaIds)) == {};
      }
      posts := posts - {postId};
      return None;
    }

    /** updatePost. With a non-empty image list the post's old media are deleted first and the
        new images checked afterwards, so a rejected image leaves the post unsaved but its old
        media already gone. */
    method UpdatePost(postId: string, userId: string, content: Option<string>, images: Option<seq<Upload>>,
                      ids: seq<string>, failing: set<string>) returns (r: Result<Post>)
      requires |ids| >= |ImagesOf(images)|
      modifies this
      ensures postId !in old(posts) ==> r == Err(IllegalArgument("Post not found"))
      ensures postId in old(posts) && old(posts)[postId].userId != userId ==>
                r == Err(IllegalArgument("You can only update your own posts"))
      ensures postId !in old(posts) || old(posts)[postId].userId != userId ==>
                posts == old(posts) && media == old(media)
      ensures postId in old(posts) && old(posts)[postId].userId == userId && ImagesOf(images) == [] ==>
                r == Ok(UpdatedPost(old(posts)[postId], content, [], false))
                && posts == old(posts)[postId := r.value] && media == old(media)
      ensures postId in old(posts) && old(posts)[postId].userId == userId && ImagesOf(images) != [] ==>
                var imgs := ImagesOf(images);
                var k := FirstRejected(imgs);
                var oldIds := OrEmptySeq(old(posts)[postId].mediaIds);
                && media == (old(media) - (IdSet(oldIds) - failing)) + IdSet(ids[..k])
                && (k < |imgs| ==> r == Err(ImageError(imgs[k])) && posts == old(posts))
                && (k == |imgs| ==> r == Ok(UpdatedPost(old(posts)[postId], content, ids[..k], true))
                                    && posts == old(posts)[postId := r.value])
    {
      if postId !in posts {
        return Err(IllegalArgument("Post not found"));
      }
      var post := posts[postId];
      if post.userId != userId {
        return Err(IllegalArgument("You can only update your own posts"));
      }
      var mediaIds := OrEmptySeq(post.mediaIds);
      if images.Some? && images.value != [] {
        if mediaIds != [] {
          DeleteMedia(mediaIds, failing);
        }
        var newIds, err := UploadImages(images.value, ids);
        if err.Some? {
          return Err(err.value);
        }
        post := UpdatedPost(post, content, newIds, true);
      } else {
        post := UpdatedPost(post, content, [], false);
      }
      posts := posts[postId := post];
      return Ok(post);
    }
  }
}
