# skill-bridge: a verified model of the service rules

skill-bridge is a small social network: a Spring backend that stores users, posts,
comments, reactions, groups, reports and notifications in MongoDB, and a React frontend. This
project models the rules those services enforce, and proves properties of them in Dafny:

- the reaction ledger (one reaction per user and post, toggle and replace, the per-post count
  map over six types) and the status codes its controller answers with;
- the comment lifecycle: who is notified about a comment, a reply or a mention, author-only
  update, delete rights, the comment-like toggle and the comment count;
- the notification store with its read state and unread count;
- post creation, update and deletion: the empty-post guard, video and image checks, media ids
  and URLs, owner-only changes, media clean-up;
- the content type of the media download endpoint;
- groups (owner-only update and delete, idempotent join, the owner may not leave);
- administrator user management (unique emails, field-merging update, role check, enabled
  toggle, password stripping) and the user's own profile service;
- post reports (PENDING on creation, free-form review, RESOLVED when the post is deleted, counts);
- the five-minute memo of the administrator statistics;
- three frontend helpers: the registration form check, the safe user-info object, and the
  de-duplication of the group feed.

Every repository is an in-memory map keyed by id (or a sequence where the service searches by a
compound key). The services are classes whose fields are those maps. Their methods modify the
fields and state the whole new state. Entities are datatypes. Java `null` is `Option.None`, and
an exception is an `Err` carrying the exception class and message. Clocks (`now`, the start of
`today`), generated ids and the password encoder's output are parameters. One module per source
file; `Common` holds the shared vocabulary.

## Model

| member | source | states |
|---|---|---|
| PostModel.FreshPost | backend/src/main/java/com/example/backend/model/Post.java:19-25 | A new post has zero likes, no images or comments, empty media lists and maps, and a total reaction count of 0 |
| PostModel.FullPost | backend/src/main/java/com/example/backend/model/Post.java:38-44 | The full constructor keeps every non-null argument and replaces each null list or map by an empty one |
| PostModel.AddReactionCount | backend/src/main/java/com/example/backend/model/Post.java:137-140 | The type's count becomes its old value (0 when absent) plus n; every other key and field is unchanged |
| PostModel.TotalAfterAddReactionCount | backend/src/main/java/com/example/backend/model/Post.java:137-147 | Adding n to one type's count adds exactly n to the total reaction count (the sum of all values) |
| PostModel.TotalReactionCount | backend/src/main/java/com/example/backend/model/Post.java:143-147 | The total of an empty count map is 0; with no negative count the total is non-negative and at least every single type's count |
| PostModel.AddMediaType | backend/src/main/java/com/example/backend/model/Post.java:150-155 | A null media-type map first becomes empty; then the id maps to the type, and the other entries and fields stay |
| UserModel.FullName | backend/src/main/java/com/example/backend/service/ReportService.java:51-52 | The display name is the first name, one space, then the last name |
| ReactionLedger.Find | backend/src/main/java/com/example/backend/service/ReactionService.java:35 | The lookup returns a stored reaction of the (user, post) pair, and returns nothing exactly when the pair holds none |
| ReactionLedger.WithoutPair | backend/src/main/java/com/example/backend/service/ReactionService.java:53 | Exactly the reactions of other pairs remain, and the store is unchanged when the pair holds none |
| ReactionLedger.ApplyReaction | backend/src/main/java/com/example/backend/service/ReactionService.java:35-49 | Sending the type the pair already holds leaves the pair with no reaction; any other send leaves it with exactly the new reaction of that type; other pairs' reactions are kept |
| ReactionLedger.ReactionCounts | backend/src/main/java/com/example/backend/service/ReactionService.java:65-79 | The count map has exactly the six types as keys; each value is the post's number of reactions of that type and is non-negative |
| ReactionLedger.DeleteFoundIsWithoutPair | backend/src/main/java/com/example/backend/service/ReactionService.java:35-42 | Under the one-per-pair invariant, deleting the found reaction by id removes every reaction of the pair |
| ReactionLedger.ApplyReactionKeepsInvariant | backend/src/main/java/com/example/backend/service/ReactionService.java:35-48 | Every accepted add keeps at most one reaction per (user, post) and unique ids |
| ReactionLedger.ToggleTwiceRestores | backend/src/main/java/com/example/backend/service/ReactionService.java:35-40 | For a pair with no reaction, sending the same type twice restores the store and the count map |
| ReactionLedger.ReplaceKeepsOneReaction | backend/src/main/java/com/example/backend/service/ReactionService.java:35-49 | Replacing type a by b leaves exactly one reaction for the pair, of type b; count(a) falls by one, count(b) rises by one, and the other types stay |
| ReactionLedger.CountWithoutPair | backend/src/main/java/com/example/backend/service/ReactionService.java:52-55 | Withdrawing the pair's reaction lowers its type's count by one and leaves the others |
| ReactionLedger.PairCount | backend/src/main/java/com/example/backend/service/ReactionService.java:35-36 | A pair holds zero reactions exactly when the lookup finds none |
| ReactionLedger.CountByPost | backend/src/main/java/com/example/backend/service/ReactionService.java:74-79 | Counting over the post's reactions gives the same numbers as counting over the whole store |
| ReactionLedger.ZeroCounts | backend/src/main/java/com/example/backend/service/ReactionService.java:65-71 | The starting map holds the six types, each at zero |
| ReactionLedger.TallyPostReactions | backend/src/main/java/com/example/backend/service/ReactionService.java:65-79 | The loop's map equals the count map over the six types |
| ReactionLedger.ReactionService.UpdatePostReactionCounts | backend/src/main/java/com/example/backend/service/ReactionService.java:57-83 | The reactions are unchanged; an existing post gets the fresh count map; a missing post gives "Post not found with ID" |
| ReactionLedger.ReactionService.AddReaction | backend/src/main/java/com/example/backend/service/ReactionService.java:24-50 | A null field or an unknown type is refused before any change; otherwise the store becomes the toggle or replace result, the invariant holds, and a missing post errs only after the change |
| ReactionLedger.ReactionService.RemoveReaction | backend/src/main/java/com/example/backend/service/ReactionService.java:52-55 | The pair's reaction goes (nothing changes when there is none), then the counts are refreshed |
| ReactionLedger.ReactionService.GetReactionCounts | backend/src/main/java/com/example/backend/service/ReactionService.java:85-110 | A null post id is refused; otherwise the map has exactly the six types, each with the post's count of that type |
| ReactionLedger.ReactionService.GetUserReaction | backend/src/main/java/com/example/backend/service/ReactionService.java:112-117 | Null ids are refused; otherwise the answer is the pair's stored reaction, or nothing exactly when the pair holds none |
| ReactionApi.ResponseTotalIsSumOfTypes | backend/src/main/java/com/example/backend/controller/ReactionController.java:22-28 | For a count map over the six types, "total" is the sum of the six counts and "reactions" is the map unchanged |
| ReactionApi.CreateResponse | backend/src/main/java/com/example/backend/controller/ReactionController.java:22-28 | "reactions" is the count map itself; "total" is 0 for no counts, and with no negative count it is non-negative and at least every single count |
| ReactionApi.BuildResponse | backend/src/main/java/com/example/backend/controller/ReactionController.java:22-28 | The body built with the summing loop is the response body: total and count map |
| ReactionApi.StatusFor | backend/src/main/java/com/example/backend/controller/ReactionController.java:75-81 | An IllegalArgumentException answers 400, and every other exception answers 500 |
| ReactionApi.SumCounts | backend/src/main/java/com/example/backend/controller/ReactionController.java:23 | The loop total equals the sum of all values of the map |
| ReactionApi.GetReactionStats | backend/src/main/java/com/example/backend/controller/ReactionController.java:30-39 | 200 with the total and the count map of the post |
| ReactionApi.GetUserReaction | backend/src/main/java/com/example/backend/controller/ReactionController.java:41-57 | 200 with the held type, or 404 exactly when the user holds no reaction on the post |
| ReactionApi.AddReaction | backend/src/main/java/com/example/backend/controller/ReactionController.java:59-82 | A missing userId or type answers 400 without touching the store; an unknown type changes nothing; a valid type applies the toggle or replace and refreshes the post's count map; 200 with the counts read after the change, or 400/500 by exception class |
| ReactionApi.RemoveReaction | backend/src/main/java/com/example/backend/controller/ReactionController.java:84-98 | The pair's reaction is removed and the post's count map refreshed; 200 with the total and counts exactly when the post exists, otherwise 500 |
| Notifications.NotificationContent | backend/src/main/java/com/example/backend/service/NotificationService.java:27-38 | Exactly the sentence of each case: "<actor> liked your <target>", "<actor> commented on your <target>", "<actor> replied to your comment", and "<actor> interacted with your <target>" for any other type. The helper is private and never called: stored notifications carry the caller's own content, and comment notifications use the sentences of Comments.FanOut |
| Notifications.Stored | backend/src/main/java/com/example/backend/service/NotificationService.java:40-56 | Nothing is stored when the recipient is the actor; otherwise one unread record with the given fields is appended and the rest stays |
| Notifications.MarkedRead | backend/src/main/java/com/example/backend/service/NotificationService.java:126-131 | The record with the id, if any, becomes read; every other record is unchanged |
| Notifications.AllReadFor | backend/src/main/java/com/example/backend/service/NotificationService.java:133-137 | Every record of the user becomes read, and every other record is unchanged |
| Notifications.UnreadCount | backend/src/main/java/com/example/backend/service/NotificationService.java:139-141 | The count is zero exactly when every record of the user is read |
| Notifications.StoredUnreadCount | backend/src/main/java/com/example/backend/service/NotificationService.java:40-56 | Storing a notification for u adds one to u's unread count (none when u is the actor) and leaves everyone else's |
| Notifications.MarkedReadIdempotent | backend/src/main/java/com/example/backend/service/NotificationService.java:126-131 | Marking a record read twice is marking it once |
| Notifications.MarkedReadUnreadCount | backend/src/main/java/com/example/backend/service/NotificationService.java:126-141 | Marking an unread record of u read lowers u's unread count by one, and otherwise changes nothing |
| Notifications.AllReadForClearsUnread | backend/src/main/java/com/example/backend/service/NotificationService.java:133-141 | After marking all of u's records read, u's unread count is 0 |
| Notifications.AllReadForKeepsOthers | backend/src/main/java/com/example/backend/service/NotificationService.java:133-141 | Marking all of u's records read leaves other users' records and unread counts as they were |
| Notifications.NotificationService.CreateNotification | backend/src/main/java/com/example/backend/service/NotificationService.java:40-56 | The store becomes the result of storing the notification |
| Notifications.NotificationService.MarkAsRead | backend/src/main/java/com/example/backend/service/NotificationService.java:126-131 | The store becomes the one-record read update, with no change for an unknown id |
| Notifications.NotificationService.MarkAllAsRead | backend/src/main/java/com/example/backend/service/NotificationService.java:133-137 | The loop leaves the store with every record of the user read |
| Notifications.NotificationService.GetUnreadCount | backend/src/main/java/com/example/backend/service/NotificationService.java:139-141 | The number of the user's unread records |
| Comments.CommenterName | backend/src/main/java/com/example/backend/service/CommentService.java:100-102 | The commenter's full name, or "Someone" when the user record is missing |
| Comments.StoredMentions | backend/src/main/java/com/example/backend/service/CommentService.java:92-95 | The mention list is kept only when it is non-null and non-empty |
| Comments.MentionRequests | backend/src/main/java/com/example/backend/service/CommentService.java:126-138 | Every mention request is a MENTION to a listed id that is neither the commenter nor the post owner |
| Comments.FanOut | backend/src/main/java/com/example/backend/service/CommentService.java:105-138 | The first request is a COMMENT to the post owner, or a REPLY to the parent's author; all later ones are MENTIONs to neither the commenter nor the owner |
| Comments.Deliver | backend/src/main/java/com/example/backend/service/CommentService.java:105-138 | Delivering keeps the earlier records as a prefix, adds at most one record per request, and adds none when every request is addressed to the commenter |
| Comments.DeliverSnoc | backend/src/main/java/com/example/backend/service/CommentService.java:126-138 | Delivering one more request stores one more notification through createNotification |
| Comments.MentionStep | backend/src/main/java/com/example/backend/service/CommentService.java:127-129 | A listed id adds one MENTION request unless it is the commenter or the post owner |
| Comments.RequestsTo | backend/src/main/java/com/example/backend/service/CommentService.java:105-138 | A user gets zero requests exactly when no request is addressed to them |
| Comments.DeliverNeverNotifiesActor | backend/src/main/java/com/example/backend/service/CommentService.java:105-138 | Delivering the requests keeps the earlier records, and no new record is addressed to the commenter |
| Comments.DeliverUnreadCount | backend/src/main/java/com/example/backend/service/CommentService.java:105-138 | Each user other than the commenter gains one unread notification per request addressed to them |
| Comments.MentionRequestCount | backend/src/main/java/com/example/backend/service/CommentService.java:126-138 | A mentioned user other than the commenter and the owner gets one request per occurrence in the list, so duplicates give duplicates |
| Comments.TopLevelCommentUnreadCount | backend/src/main/java/com/example/backend/service/CommentService.java:105-111 | A top-level comment with no mentions gives the post owner exactly one new unread notification, or none when the owner is the commenter |
| Comments.FindCommentReaction | backend/src/main/java/com/example/backend/service/CommentService.java:292-293 | The user's stored reaction on the comment, or nothing exactly when there is none |
| Comments.WithoutReactionId | backend/src/main/java/com/example/backend/service/CommentService.java:297 | Exactly the reactions with other ids remain |
| Comments.Toggled | backend/src/main/java/com/example/backend/service/CommentService.java:292-302 | With no reaction, the user ends with exactly the new one; with one, it is gone and nothing new appears |
| Comments.LikeCount | backend/src/main/java/com/example/backend/service/CommentService.java:61 | The number of "like" reactions on the comment never exceeds the number of reactions |
| Comments.LikeCountSnoc | backend/src/main/java/com/example/backend/service/CommentService.java:61 | A reaction saved at the end adds one to its comment's like count exactly when it is a like |
| Comments.LikeCountWithoutId | backend/src/main/java/com/example/backend/service/CommentService.java:61 | Deleting a stored reaction by id takes away exactly its own like, if it is one |
| Comments.ToggledLikeCount | backend/src/main/java/com/example/backend/service/CommentService.java:292-305 | A toggle that saves a like raises the comment's like count by one, one that withdraws a like lowers it by one, and every other toggle and every other comment keeps its count |
| Comments.WithoutFoundHasNone | backend/src/main/java/com/example/backend/service/CommentService.java:292-297 | Deleting the found reaction by id leaves the user with no reaction on the comment |
| Comments.ToggleFlips | backend/src/main/java/com/example/backend/service/CommentService.java:292-302 | Reacting flips whether the user has a reaction on the comment, and keeps the collection well formed |
| Comments.ToggleTwiceRestores | backend/src/main/java/com/example/backend/service/CommentService.java:292-302 | Two reactions in a row by a user who had none restore the collection exactly |
| Comments.CommentCountOf | backend/src/main/java/com/example/backend/service/CommentService.java:308-316 | The count is zero exactly when no comment belongs to the post |
| Comments.CommentCountAfterSave | backend/src/main/java/com/example/backend/service/CommentService.java:96-97 | Saving a new comment adds one to its post's count and leaves other posts' counts |
| Comments.CommentCountAfterDelete | backend/src/main/java/com/example/backend/service/CommentService.java:181-198 | Deleting a comment takes one from its post's count and leaves the others |
| Comments.Detached | backend/src/main/java/com/example/backend/service/CommentService.java:175-179 | The comment id leaves its post's list when the post exists; every other post is unchanged |
| Comments.MayDelete | backend/src/main/java/com/example/backend/service/CommentService.java:168-199 | A missing comment may never be deleted; an admin may delete any existing one; otherwise exactly the author or the post's owner may, and only while the post exists |
| Comments.CommentService.CommentCount | backend/src/main/java/com/example/backend/service/CommentService.java:308-316 | The number of stored comments of the post |
| Comments.CommentService.CreateComment | backend/src/main/java/com/example/backend/service/CommentService.java:81-141 | A missing post fails before any save; the comment is saved first; a missing parent fails after the save; the notifications are the fan-out, delivered in order |
| Comments.CommentService.NotifyMentions | backend/src/main/java/com/example/backend/service/CommentService.java:126-138 | The loop delivers exactly the mention requests, in list order |
| Comments.CommentService.UpdateComment | backend/src/main/java/com/example/backend/service/CommentService.java:153-166 | Only the author changes the content and updatedAt; a missing comment or another user fails and nothing changes |
| Comments.CommentService.DeleteComment | backend/src/main/java/com/example/backend/service/CommentService.java:168-199 | An admin always deletes and detaches the id when the post exists; otherwise the post must exist and the caller must be the author or the owner |
| Comments.CommentService.ReactToComment | backend/src/main/java/com/example/backend/service/CommentService.java:286-306 | A missing comment fails; otherwise the reaction is toggled and the answer carries the like count and the caller's like flag |
| Posts.ValidateVideo | backend/src/main/java/com/example/backend/service/PostService.java:177-185 | A video passes exactly when its type is video/mp4 or video/quicktime and its size is at most 15 MiB, with the matching error for each failure |
| Posts.ImageError | backend/src/main/java/com/example/backend/service/PostService.java:144-147 | A null content type fails with a NullPointerException, and any other rejected type with IllegalArgumentException("Only image files are supported") |
| Posts.FirstRejected | backend/src/main/java/com/example/backend/service/PostService.java:143-147 | Every image before the position is accepted, and the image at it (if any) is rejected |
| Posts.MediaUrls | backend/src/main/java/com/example/backend/service/PostService.java:152-154 | One URL per id, in order, each "/api/media/" followed by the id |
| Posts.MediaUrlsDistinct | backend/src/main/java/com/example/backend/service/PostService.java:152-154 | Distinct media ids give distinct URLs |
| Posts.CreatedPost | backend/src/main/java/com/example/backend/service/PostService.java:117-157 | Zero likes and no comments; the video id comes first in mediaIds, then the images in order; when images are given, imageUrls covers every media id, the video included |
| Posts.UpdatedPost | backend/src/main/java/com/example/backend/service/PostService.java:256-290 | Content is always replaced; with images, mediaIds and imageUrls become the new ids and their URLs, and otherwise both stay |
| Posts.PostService.UploadImages | backend/src/main/java/com/example/backend/service/PostService.java:143-151 | The images before the first rejected one are uploaded, and the error is that image's |
| Posts.PostService.DeleteMedia | backend/src/main/java/com/example/backend/service/PostService.java:230-243 | Every id that does not fail is removed from the media store, and a failing delete stops nothing |
| Posts.PostService.CreatePost | backend/src/main/java/com/example/backend/service/PostService.java:112-164 | A post without video, images or content is refused; a bad video is refused before any upload; otherwise the stored post is the created post |
| Posts.PostService.StoreNewPost | backend/src/main/java/com/example/backend/service/PostService.java:142-158 | The images before the first rejected one reach the media store; a rejected image fails with its error and no post is saved; otherwise the created post is saved under the new id |
| Posts.PostService.DeletePost | backend/src/main/java/com/example/backend/service/PostService.java:222-246 | A missing post or another user fails with nothing changed; otherwise the post goes, whatever media deletes fail |
| Posts.PostService.UpdatePost | backend/src/main/java/com/example/backend/service/PostService.java:248-297 | A missing post or another user fails; otherwise the post becomes the updated post, and with images its old media are deleted first |
| MediaContentType.SuffixType | backend/src/main/java/com/example/backend/controller/PostController.java:238-257 | Each recognised suffix maps to its type, and no type is given exactly when the name has none of the suffixes |
| MediaContentType.SuffixesExclusive | backend/src/main/java/com/example/backend/controller/PostController.java:238-257 | A name ends with at most one of the recognised suffixes, so the order of the checks does not matter |
| MediaContentType.DetermineContentType | backend/src/main/java/com/example/backend/controller/PostController.java:222-262 | A stored "contentType" wins; otherwise "image" and "video" metadata decide; when the metadata decides nothing (absent, or neither key applies) the lower-cased suffix decides, else application/octet-stream; the result is one of seven types |
| MediaContentType.ContentTypeIgnoresCase | backend/src/main/java/com/example/backend/controller/PostController.java:239 | A file name and its lower-cased form get the same type |
| MediaContentType.ContentTypeSameIgnoringCase | backend/src/main/java/com/example/backend/controller/PostController.java:239 | Two names that differ only in letter case get the same type |
| Groups.Joined | backend/src/main/java/com/example/backend/service/GroupService.java:54-62 | The user is a member afterwards; an existing member leaves the list unchanged, and anyone else is appended |
| Groups.JoinIdempotent | backend/src/main/java/com/example/backend/service/GroupService.java:54-62 | Joining twice is joining once |
| Groups.JoinKeepsDistinct | backend/src/main/java/com/example/backend/service/GroupService.java:54-62 | Joining never introduces a duplicate member |
| Groups.LeaveRemovesMember | backend/src/main/java/com/example/backend/service/GroupService.java:64-74 | In a duplicate-free list, leaving removes the user entirely and keeps the list duplicate-free |
| Groups.JoinThenLeaveRestores | backend/src/main/java/com/example/backend/service/GroupService.java:57-72 | A non-member who joins and then leaves finds the member list as before |
| Groups.GroupService.GetGroupById | backend/src/main/java/com/example/backend/service/GroupService.java:20-23 | The stored group, or "Group not found" exactly when the id is unknown |
| Groups.GroupService.UpdateGroup | backend/src/main/java/com/example/backend/service/GroupService.java:29-41 | Only a request naming the stored owner changes the group, and then only its name and description |
| Groups.GroupService.DeleteGroup | backend/src/main/java/com/example/backend/service/GroupService.java:43-52 | Only the owner deletes; otherwise the group remains |
| Groups.GroupService.JoinGroup | backend/src/main/java/com/example/backend/service/GroupService.java:54-62 | The group's members become the joined list, and the other groups stay |
| Groups.GroupService.LeaveGroup | backend/src/main/java/com/example/backend/service/GroupService.java:64-74 | The owner is refused; anyone else is removed, which is a no-op for a non-member |
| Admin.EmailTaken | backend/src/main/java/com/example/backend/service/AdminService.java:51 | No email is taken in an empty store; an untaken email belongs to no stored user |
| Admin.SaveKeepsEmailsUnique | backend/src/main/java/com/example/backend/service/AdminService.java:51-73 | Saving a user under a new id keeps emails unique exactly when the email is not taken |
| Admin.Sanitize | backend/src/main/java/com/example/backend/service/AdminService.java:188-203 | Every field is copied except the password, which is null |
| Admin.SanitizeForgetsPasswords | backend/src/main/java/com/example/backend/service/AdminService.java:188-203 | Sanitizing is idempotent, and the sanitized copy does not depend on the password fields |
| Admin.UpdateError | backend/src/main/java/com/example/backend/service/AdminService.java:94-127 | An update is refused exactly when it changes the email to one in use, or names a role other than ROLE_USER or ROLE_ADMIN |
| Admin.Merged | backend/src/main/java/com/example/backend/service/AdminService.java:84-133 | Names, email and role are replaced only when given non-empty; enabled is the update's; everything else stays |
| Admin.MergedKeepsEmailsUnique | backend/src/main/java/com/example/backend/service/AdminService.java:94-114 | An accepted update keeps every email unique |
| Admin.SanitizedWhere | backend/src/main/java/com/example/backend/service/AdminService.java:29-44 | Exactly the selected users, each sanitized |
| Admin.AdminService.GetAllUsers | backend/src/main/java/com/example/backend/service/AdminService.java:29-34 | Every user, sanitized |
| Admin.AdminService.GetBlockedUsers | backend/src/main/java/com/example/backend/service/AdminService.java:39-44 | Exactly the disabled users, sanitized |
| Admin.AdminService.CreateUser | backend/src/main/java/com/example/backend/service/AdminService.java:49-75 | A taken email is refused with nothing saved; otherwise the body is saved with the encoded and raw passwords and createdAt set only when null, under the id it carries (replacing any user stored there) or a generated one, and emails stay unique |
| Admin.AdminService.UpdateUser | backend/src/main/java/com/example/backend/service/AdminService.java:80-145 | An unknown id or a refused update changes nothing; otherwise the stored user becomes the merged user and emails stay unique |
| Admin.AdminService.DeleteUser | backend/src/main/java/com/example/backend/service/AdminService.java:150-162 | An unknown id fails; otherwise exactly that user is removed |
| Admin.AdminService.ToggleUserStatus | backend/src/main/java/com/example/backend/service/AdminService.java:167-183 | An unknown id fails; otherwise enabled is negated and nothing else changes |
| Admin.ToggleTwiceRestores | backend/src/main/java/com/example/backend/service/AdminService.java:167-183 | Two toggles restore the store |
| Users.RoleUpdated | backend/src/main/java/com/example/backend/service/UserService.java:110-123 | The corrected role update changes only the role and keeps both password fields |
| Users.UpdateUserRoleAsWritten | backend/src/main/java/com/example/backend/service/UserService.java:110-123 | As written: an unknown id or role fails; otherwise the stored user gets the new role and null password fields |
| Users.RoleUpdateAsWrittenLosesPassword | backend/src/main/java/com/example/backend/service/UserService.java:110-123 | As written, a user who had a password has none stored after a role update |
| Users.RoleUpdateAsWrittenExample | backend/src/main/java/com/example/backend/service/UserService.java:110-123 | Promoting user "u1" with password "secret" leaves the stored password null |
| Users.ProfileUpdated | backend/src/main/java/com/example/backend/service/UserService.java:59-85 | Each non-null text field replaces the old one, even when empty; an accepted picture sets its media URL; everything else stays |
| Users.PictureError | backend/src/main/java/com/example/backend/service/UserService.java:72-85 | A picture is refused exactly when its content type is not an image type |
| Users.MatchesQuery | backend/src/main/java/com/example/backend/service/UserService.java:136-138 | The empty query matches everyone, and an exact-case occurrence in the first name, last name or email is a match |
| Users.MatchesQueryIgnoresCase | backend/src/main/java/com/example/backend/service/UserService.java:136-138 | Two queries that differ only in ASCII letter case find the same users |
| Users.UserService.GetUserById | backend/src/main/java/com/example/backend/service/UserService.java:37-46 | An unknown id fails; otherwise the stored user with both password fields null |
| Users.UserService.UpdateUserProfile | backend/src/main/java/com/example/backend/service/UserService.java:48-98 | An unknown id or a refused picture changes nothing; otherwise the stored user becomes the profile update |
| Users.UserService.UpdateUserRole | backend/src/main/java/com/example/backend/service/UserService.java:110-123 | Corrected: an unknown id or a role outside ROLE_USER and ROLE_ADMIN fails; otherwise only the stored role changes. The code as written also nulls both stored password fields (see Users.UpdateUserRoleAsWritten and "## Findings") |
| Users.UserService.SearchUsers | backend/src/main/java/com/example/backend/service/UserService.java:135-147 | Exactly the users whose name or email contains the query, each with both password fields null |
| Users.RoleUpdateKeepsCredentials | backend/src/main/java/com/example/backend/service/UserService.java:110-123 | The corrected role update keeps the credentials and every other field |
| Reports.Reviewed | backend/src/main/java/com/example/backend/service/ReportService.java:93-96 | A review sets status, review time, admin id and admin note, and keeps every other field |
| Reports.WithStatus | backend/src/main/java/com/example/backend/service/ReportService.java:72-74 | Exactly the ids of the reports with the given status |
| Reports.CountByStatus | backend/src/main/java/com/example/backend/service/ReportService.java:130-133 | A status count never exceeds the number of reports |
| Reports.StatsBounded | backend/src/main/java/com/example/backend/service/ReportService.java:127-141 | pending + resolved + rejected never exceeds the total |
| Reports.StatsMayFallShort | backend/src/main/java/com/example/backend/service/ReportService.java:127-141 | A report with any other status counts only in the total, so the three counts can sum to less |
| Reports.ResolveMovesCount | backend/src/main/java/com/example/backend/service/ReportService.java:104-122 | Resolving moves a report from its old status count to the RESOLVED count |
| Reports.ReportService.CreateReport | backend/src/main/java/com/example/backend/service/ReportService.java:37-59 | A missing post, then a missing reporter, fails with nothing saved; otherwise the saved report is PENDING with the reporter's full name and the creation time, stored under the id the body carries (replacing any report stored there) or a generated one |
| Reports.ReportService.GetReportsByStatus | backend/src/main/java/com/example/backend/service/ReportService.java:72-74 | Exactly the reports whose status equals the argument |
| Reports.ReportService.UpdateReportStatus | backend/src/main/java/com/example/backend/service/ReportService.java:86-99 | An unknown id fails; otherwise the report is reviewed with any status string, and nothing else changes |
| Reports.ReportService.DeleteReportedPost | backend/src/main/java/com/example/backend/service/ReportService.java:104-122 | An unknown id fails; otherwise the reported post is gone and the report is RESOLVED with the admin fields |
| Reports.ReportService.GetReportStats | backend/src/main/java/com/example/backend/service/ReportService.java:127-141 | The total and the three status counts, with the three never summing past the total |
| AdminStats.UserStatsOf | backend/src/main/java/com/example/backend/service/AdminStatsService.java:45-60 | count equals total, which is the number of users; today's new users and the active users never exceed it |
| AdminStats.PostStatsOf | backend/src/main/java/com/example/backend/service/AdminStatsService.java:77-78 | count equals total, the number of posts |
| AdminStats.TodayPostsOf | backend/src/main/java/com/example/backend/service/AdminStatsService.java:101-102 | The number of posts created today never exceeds the number of posts |
| AdminStats.Fresh | backend/src/main/java/com/example/backend/service/AdminStatsService.java:35-41 | A missing entry is never used; an entry answers from its store time until five minutes (300000 ms) later, and never after |
| AdminStats.RefreshedEntryLasts | backend/src/main/java/com/example/backend/service/AdminStatsService.java:35-43 | An entry stored at t answers every request until, and only until, t plus five minutes |
| AdminStats.AdminStatsService.GetUserStats | backend/src/main/java/com/example/backend/service/AdminStatsService.java:38-67 | A fresh entry is returned as it is, however the users changed; otherwise the stats are recomputed and stored with time now; other entries stay |
| AdminStats.AdminStatsService.GetPostStats | backend/src/main/java/com/example/backend/service/AdminStatsService.java:70-85 | The same memo rule over the post statistics |
| AdminStats.AdminStatsService.GetTodayPostsCount | backend/src/main/java/com/example/backend/service/AdminStatsService.java:88-109 | The same memo rule over today's post count |
| RegisterForm.IndexOf | frontend/src/pages/Register.js:46 | The first position of the character, or nothing exactly when it does not occur |
| RegisterForm.EmailShapeIffPattern | frontend/src/pages/Register.js:46 | The direct scan accepts exactly the strings the email regular expression matches |
| RegisterForm.ValidationErrors | frontend/src/pages/Register.js:42-47 | A field has an error exactly when its rule fails, with that rule's message, and no other keys appear |
| RegisterForm.IsValid | frontend/src/pages/Register.js:49-50 | Valid exactly when no error is set, that is when both names have two characters, the email matches the pattern and the password has six |
| RegisterForm.NoErrorsIffRulesHold | frontend/src/pages/Register.js:42-50 | The errors object is empty exactly when all four rules hold |
| RegisterForm.Submit | frontend/src/pages/Register.js:57-69 | The registration request leaves only for a valid form, carrying the form unchanged; otherwise it stops with the errors |
| UserUtils.SafeUserInfo | frontend/src/utils/userUtils.js:31-50 | Exactly the seven keys; each is the user's value when truthy and the default otherwise, and a falsy user gives all defaults |
| UserUtils.SafeUserInfoIdempotent | frontend/src/utils/userUtils.js:31-50 | Making a safe copy of a safe copy changes nothing |
| UserUtils.IsValidUser | frontend/src/utils/userUtils.js:58-60 | Truthy exactly for an object with a truthy id |
| UserUtils.SafeUserValidIffId | frontend/src/utils/userUtils.js:31-60 | The safe copy passes the validity test exactly when the user had a truthy id |
| UserUtils.Spread | frontend/src/utils/userUtils.js:21 | The merge has the keys of both; the update's values win, and the other cached values stay |
| UserUtils.SpreadIdempotent | frontend/src/utils/userUtils.js:21 | Merging the same update twice is merging it once |
| UserUtils.UserCache.UpdateCachedUser | frontend/src/utils/userUtils.js:5-23 | The cached user, read through UserUtils.UserCache.CachedUser (getCachedUser), or an empty object when there is none, with the update's keys overriding is stored and returned; other cached keys are kept |
| GroupFeed.Placeholder | frontend/src/pages/GroupFeed.js:78-88 | "User " followed by the first six characters of the id |
| GroupFeed.Named | frontend/src/pages/GroupFeed.js:76-90 | Only a shared post is touched; a missing name with a present id gets the placeholder |
| GroupFeed.FirstIdsAndKept | frontend/src/pages/GroupFeed.js:66-97 | The Map's keys are exactly the input ids, each once |
| GroupFeed.FirstIdsInAppearanceOrder | frontend/src/pages/GroupFeed.js:92-97 | The output order is the order of each id's first appearance |
| GroupFeed.KeptIsWinner | frontend/src/pages/GroupFeed.js:71-74 | The kept post of an id has the greatest createdAt, the earliest of equally new ones, with names filled |
| GroupFeed.ProcessedIsDeduplicated | frontend/src/pages/GroupFeed.js:66-97 | Each id appears at most once, the ids are exactly the input's, and each entry is its id's winning post |
| GroupFeed.Deduplicate | frontend/src/pages/GroupFeed.js:66-97 | The loop produces the processed list |
| GroupFeed.ProcessResponse | frontend/src/pages/GroupFeed.js:64-102 | A body that is not an array gives the empty list; otherwise the de-duplicated posts |

## Left out

- Spring Data repositories are in-memory maps or sequences. The order of lists that the model keys by id is not modelled: getAllUsers, getBlockedUsers, searchUsers and getReportsByStatus.
- GridFS uploads and deletes and local file writes are not modelled. Fresh media ids are parameters, and the set of media deletes that fail is a parameter of deletePost and updatePost.
- The password encoder is not modelled; its output is a parameter of createUser.
- Wall-clock time is not modelled. `now` is a parameter, and the Calendar start of day in AdminStatsService.java:48-53 and 95-100 is the parameter `today`.
- getAllStatsParallel (AdminStatsService.java:112-130) runs concurrently and is not modelled. Concurrency between requests is not modelled anywhere.
- Users.UserService.SearchUsers: case folding covers the ASCII letters only. The repository's case-insensitive "containing" query also folds non-ASCII letters, so a query "émile" finds "Émile" there but not in the model. The same holds for Users.MatchesQuery.
- MediaContentType.DetermineContentType: the file name is lower-cased over the ASCII letters only. Java's toLowerCase() at PostController.java:239 is Unicode-aware and follows the default locale (the Turkish dotted and dotless i), which the model does not capture.
- AdminStats.TodayPostsOf: the `(int)` cast of the long count is not modelled; counts are unbounded.
- AdminStats.UserStatsOf: the `(int)` cast of userRepository.count() (AdminStatsService.java:45) is not modelled; counts are unbounded.
- AdminStats.PostStatsOf: the `(int)` cast of postRepository.count() (AdminStatsService.java:77) is not modelled; counts are unbounded.
- Notifications.NotificationService.CreateNotification: the WebSocket pushes (NotificationService.java:58-81) are not modelled. The catch that swallows every failure (83-85) has nothing to catch once saving cannot fail.
- getUserNotifications (NotificationService.java:116-124) only reads and sorts, and is not modelled.
- Comments.CommentService.CreateComment: the response conversion is modelled only for the like count and the caller's like flag. The CommentResponse and PostResponse DTOs are not modelled beyond that.
- Comment.java, User.java and Group.java are not part of this model. Their fields come from the getters and setters the services call.
- ReactionLedger: the reaction record is (id, userId, postId, reactionType), as the service uses it. The repository finders and the three-argument constructor it calls are not declared in the repository and model sources.
- GroupFeed: createdAt is compared as an integer. A JavaScript string comparison of ISO dates is not modelled.
- GroupFeed.Placeholder and RegisterForm.ValidationErrors: string length counts Dafny characters (code points), not UTF-16 code units.
- UserUtils.OwnProperties: a string's index keys, which spreading a string would copy, are not modelled. A JavaScript number is an integer or NaN.
- UserUtils.UserCache.UpdateCachedUser: the JSON.stringify/JSON.parse round trip through local storage is taken as the identity.
- The remaining read-only service calls (getAllGroups, getAllReports, getReportById, getAllPosts, getUserPosts, getPostComments) contain none of the rules above and are not modelled. createGroup (GroupService.java:25-27) is a pass-through save with no rule in it and is not modelled either.

## Findings

| source | as written | input that shows it | evidently intended | confidence | as-written member | corrected member |
|---|---|---|---|---|---|---|
| backend/src/main/java/com/example/backend/service/UserService.java:110-123 | updateUserRole saves the object returned by getUserById, whose password and rawPassword were set to null | user "u1" with password "secret" promoted to ROLE_ADMIN; the stored user afterwards has no password | only the role changes; the stored credentials stay | not executed | Users.RoleUpdateAsWrittenExample | Users.RoleUpdateKeepsCredentials |
