# PR-code review blog: a verified model of its core

PR-code is a Laravel/Vue blog for sharing code. A post body is a list of text and code
blocks. Each code block becomes a snippet that readers can comment on line by line
("inline comments"), in threads of replies. Around that core sit likes, reactions,
follows, bookmarks and notifications. On the client side there is a tab strip, an
optimistic post store, avatar fallbacks and a language normaliser for the syntax
highlighter.

This project models that core in Dafny and proves what the code promises about it.

- **The database** is one `Store.Db` object. It holds a sequence of rows per table
  (posts, snippets, comments, bookmarks, notifications), sets for the membership tables
  (likes, reactions, follows), and one auto-increment counter. `Db.Valid()` is the schema
  it keeps:
  - ids are unique, positive and below the counter;
  - foreign keys resolve, and a parent comment predates its replies;
  - slugs are unique;
  - there is one bookmark per (user, post).
- **Services and controllers** are module-level methods over `db`. Each one states its
  new state through a specification function, and the lemmas beside those functions
  prove the behaviour the code promises.
- **Client-side code:**
  - the tab list (`Tabs.TabList`) and the post store (`PostState.PostStore`) are classes
    whose methods update their fields in place;
  - the avatar and language helpers are pure functions.

One module per source file:

| module | source |
|---|---|
| `CommentController` | `app/Http/Controllers/Web/CommentController.php` |
| `CommentService` | `app/Services/CommentService.php` |
| `CommentModel` | `app/Models/Comment.php` |
| `PostService` | `app/Services/PostService.php` |
| `PostResource` | `app/Http/Resources/PostResource.php` |
| `CommentNotifications` | `app/Listeners/SendCommentNotification.php` |
| `CommentBroadcast` | `app/Events/CommentCreatedBroadcast.php` |
| `StoreCommentRequest` | `app/Http/Requests/StoreCommentRequest.php` |
| `StorePostRequest` | `app/Http/Requests/StorePostRequest.php` |
| `Reactions` | `app/Http/Controllers/Api/ReactionController.php` |
| `Follows` | `app/Http/Controllers/Api/FollowController.php` |
| `Bookmarks` | `app/Http/Controllers/Api/BookmarkController.php` |
| `NotificationInbox` | `app/Http/Controllers/Api/NotificationController.php` |
| `Tabs` | `resources/js/composables/useTabs.ts` |
| `PostState` | `resources/js/composables/usePostState.js` |
| `Avatar` | `resources/js/utils/avatar.ts` |
| `Syntax` | `resources/js/util/syntax.ts` |

The shared modules are:

- `Common`: options and results, PHP and JavaScript truthiness, `explode`, decimal
  numerals, ASCII case mapping, and the set toggle behind every like or reaction table.
- `Records`: the rows, `find`, and the orderings of the repositories and relations.
- `Sorting`: a stable insertion sort by an integer key, standing for `orderBy` and `usort`.
- `Store`: the database and its cascading deletes.
- `Validation`: the Laravel rule vocabulary over a decoded request.

The model follows these behaviours of the code:

- **Line count.** A snippet's line count is `count(explode("\n", code_text))`. So a
  trailing newline adds one empty line that a comment may target: three lines, not two,
  for `"a\nb\n"`.
- **Thread filter and replies.** `getThreads` drops non-inline replies in its filter. It
  still emits each matched starter's whole `replies` relation.
- **No deduplication in the inline index.** `PostResource` counts a reply loaded both as
  a row and as a reply twice.
- **The listener runs inside `createComment`'s transaction.** `CommentCreated` is
  handled synchronously by `SendCommentNotification`, registered in
  `app/Providers/AppServiceProvider.php`, before `DB::transaction` commits.
  - The listener reads `$comment->snippet->post`. For a comment without a snippet this
    throws, the insert is rolled back, and the call fails.
  - So only comments on an existing snippet are ever stored. That includes an inline
    comment without `snippet_id`: the service's guards accept it, since they skip the
    line-range check for it, but the listener then throws.
  - When the listener succeeds, its notifications commit together with the comment.
- **Null line columns in `getThreads`.** PHP compares a null `start_line` as below any
  truthy line and a null `end_line` as below it too. So in the line filter a null start
  passes and a null end fails.
- **Deleting snippets in `updatePost`.** The comments table's foreign keys cascade
  (`database/migrations/2025_12_06_091744_create_comments_table.php:17-18`). So deleting
  a post's snippets also deletes their inline comments and all replies below them.
- **`unread_only=false`.** The query string `"false"` is truthy in PHP. So it still
  restricts the listing to unread notifications.
- **Follow counts.** The `following_count` in a follow response is the followed user's
  own following count, not the caller's.
- **Empty tab ids.** In `useTabs`, `?.id || null` turns an empty-string tab id into
  "no active tab".
- **Space-only names.** A name made only of spaces is truthy, so its initials are the
  empty string, not `?`.

## Model

| member | source | states |
|---|---|---|
| `CommentController.FirstSnippet` | app/Http/Controllers/Web/CommentController.php:414-421 | the fallback is null exactly when the post has no snippets, else the first one in `block_index` order |
| `CommentController.ResolveSnippetId` | app/Http/Controllers/Web/CommentController.php:375-422 | null exactly when the post has no snippets; any result is the id of a snippet of that post |
| `CommentController.NumericOwnSnippet` | app/Http/Controllers/Web/CommentController.php:383-388 | a numeric block id naming a snippet of the same post resolves to that snippet |
| `CommentController.NumericForeignFallsBack` | app/Http/Controllers/Web/CommentController.php:383-393 | a numeric id that names no snippet of this post (missing, or another post's) falls back to the post's first snippet |
| `CommentController.CodeNResolves` | app/Http/Controllers/Web/CommentController.php:396-418 | `code-N` resolves to element N-1 of the post's snippets in `block_index` order; `code-0` or an N past the end falls back to the first snippet |
| `CommentController.Matching` | app/Http/Controllers/Web/CommentController.php:177-196 | a comment is kept iff it is inline and covers the line itself or through its parent |
| `CommentController.ThreadStarters` | app/Http/Controllers/Web/CommentController.php:206 | exactly the matched comments without a parent |
| `CommentController.ReplyMessages` | app/Http/Controllers/Web/CommentController.php:225-240 | one message per reply, in order, each naming the starter as parent and carrying the reply's start line or else the parent's |
| `CommentController.ThreadsFor` | app/Http/Controllers/Web/CommentController.php:138-155 | `resolved` is always false, and the message list is empty when `line` is falsy or no snippet resolves |
| `CommentController.ThreadsSound` | app/Http/Controllers/Web/CommentController.php:177-241 | every message comes from an inline starter of the resolved snippet that covers the line, or from one of its replies |
| `CommentController.ThreadsComplete` | app/Http/Controllers/Web/CommentController.php:206-241 | every inline starter of the resolved snippet that covers the line appears, and so does each of its replies, inline or not |
| `CommentController.ThreadsOrdered` | app/Http/Controllers/Web/CommentController.php:243-246 | messages ascend by `created_at`, and messages with equal times keep their flattened order |
| `CommentController.FlattenMembers` | app/Http/Controllers/Web/CommentController.php:208-241 | a message is in the flattened list iff it belongs to the thread of one of the starters |
| `CommentController.ThreadMembers` | app/Http/Controllers/Web/CommentController.php:210-240 | a thread holds the starter's message and exactly one message per reply |
| `CommentController.AppendThread` | app/Http/Controllers/Web/CommentController.php:208-240 | the inner loop appends the starter's message, then its replies' messages in order |
| `CommentController.CollectThreads` | app/Http/Controllers/Web/CommentController.php:203-241 | the outer loop builds the flattened threads of all starters in order |
| `CommentController.GetThreads` | app/Http/Controllers/Web/CommentController.php:135-261 | the response equals the `ThreadsFor` specification |
| `CommentController.ThreadCommentShape` | app/Http/Controllers/Web/CommentController.php:286-294 | a committed thread comment is inline, on the resolved snippet and the route's post, starts and ends on the requested line, and keeps the content, which is never blank, and parent |
| `CommentController.StoreThread` | app/Http/Controllers/Web/CommentController.php:266-324 | validation failure, then 404 when no snippet resolves, else the service's committed outcome; on any error neither comments nor notifications change, on success the comments table grows by exactly the new row, whose body is the given `content` and is not blank (`required` refuses a string that trims to `''`) |
| `CommentController.InlineWithoutSnippetRollsBack` | app/Http/Controllers/Web/CommentController.php:94-116 | an inline comment without `snippet_id` on an existing post passes the service's guards with any ordered line pair, yet is rolled back with the listener's null-snippet error, so the action reports a failure |
| `CommentController.StoreInlineComment` | app/Http/Controllers/Web/CommentController.php:84-116 | invalid input is refused; `start_line > end_line` is refused before the service runs; otherwise the service's committed outcome, with comments and notifications unchanged on every error; a stored row's body is the given `body`, never blank |
| `CommentService.LineCount` | app/Services/CommentService.php:45-46 | the line count is one more than the number of newlines |
| `CommentService.TrailingNewlineAddsLine` | app/Services/CommentService.php:45-46 | a trailing newline adds one accepted line |
| `CommentService.TwoLinesAndTrailingNewline` | app/Services/CommentService.php:45-57 | `"a\nb\n"` splits into three pieces; line 3 is accepted and line 10 is not |
| `CommentService.MissingPostFails` | app/Services/CommentService.php:30-35 | a supplied post id naming no post fails with "Post not found" |
| `CommentService.InlineRangeChecked` | app/Services/CommentService.php:38-57 | an accepted inline comment has an existing snippet, both lines, and `1 <= start <= end <= lineCount` |
| `CommentService.OutOfRangeFails` | app/Services/CommentService.php:55-57 | an out-of-range inline comment fails and reports the snippet's line count |
| `CommentService.NoPostIdFails` | app/Services/CommentService.php:63-74 | with no post id and no snippet that supplies one, a non-inline comment fails |
| `CommentService.StoredRecord` | app/Services/CommentService.php:25-86 | the stored row carries the caller, the given snippet, parent, inline flag, lines and body, and the post id given or else the snippet's |
| `CommentService.InsertKeepsValid` | app/Services/CommentService.php:77-86 | a successful insert keeps ids unique and foreign keys resolving |
| `CommentService.InsertComment` | app/Services/CommentService.php:25-86 | the guards and the insert: the result is the `CreateOutcome` specification, and the table grows by exactly the new row or not at all |
| `CommentService.CommittedHasSnippet` | app/Services/CommentService.php:24-97 | a committed comment is the row the guards let through, and it names an existing snippet whose post exists |
| `CommentService.SnippetlessRollsBack` | app/Services/CommentService.php:24-97 | a comment without `snippet_id`, inline or not, never commits: when the guards accept it, the listener's null-snippet error rolls it back |
| `CommentService.CommitsWhenListenerResolves` | app/Services/CommentService.php:24-97 | when the snippet, its post and the commenter exist, the listener does not throw and the guarded insert commits unchanged |
| `CommentService.DispatchCreated` | app/Services/CommentService.php:88-89 | the listener's error is returned; on an error comments, notifications and the counter are put back to their values before the insert, otherwise exactly the listener's notifications are appended and comments are untouched |
| `CommentService.CreateComment` | app/Services/CommentService.php:22-98 | the result is the `CreateResult` specification (guards, insert, then the listener inside the transaction); on success the comment and exactly the listener's notifications are added; on any error comments, notifications and the counter are unchanged |
| `CommentService.OwnComment` | app/Services/CommentService.php:139-143 | fails with the same error for a missing comment and for another author's comment; otherwise yields the caller's comment |
| `CommentService.BodyOnly` | app/Services/CommentService.php:146-149 | the update carries the body when one is given and no other column |
| `CommentService.UpdateComment` | app/Services/CommentService.php:137-156 | refused without change unless the caller wrote it; otherwise only the body changes (with the `edited_at` stamp) |
| `CommentService.DeleteComment` | app/Services/CommentService.php:158-167 | refused without change unless the caller wrote it; otherwise the row and every reply below it go |
| `CommentService.ToggleLike` | app/Services/CommentService.php:169-191 | fails for a missing comment; otherwise flips the like and returns the new state and the count after the flip |
| `CommentModel.Save` | app/Models/Comment.php:39-43 | a changed body stamps `edited_at` with now; an unchanged body leaves it alone; all other columns are the filled ones |
| `CommentModel.ResolveSetsThreeFields` | app/Models/Comment.php:86-93 | `resolve` sets resolved, resolved_at = now and resolved_by = the user, and nothing else |
| `CommentModel.UnresolveClearsThreeFields` | app/Models/Comment.php:95-102 | `unresolve` clears the three resolution columns and nothing else |
| `CommentModel.ResolveThenUnresolve` | app/Models/Comment.php:86-102 | resolve then unresolve leaves the resolution columns cleared, whatever they held |
| `CommentModel.BodyUpdateTouchesOnlyBody` | app/Models/Comment.php:39-43 | a body update changes only `body` and, when the body differs, `edited_at` |
| `CommentModel.Update` | app/Models/Comment.php:39-43 | the row with that id is replaced by its saved version; other rows stay |
| `CommentModel.Resolve` | app/Models/Comment.php:86-93 | the row gains the three resolution values; other rows stay |
| `CommentModel.Unresolve` | app/Models/Comment.php:95-102 | the row's resolution columns are cleared; other rows stay |
| `Records.SameIdSameRow` | database/migrations/2025_12_06_091744_create_comments_table.php:15 | with a primary key, two rows with one id are the same row, and every row is stored exactly once |
| `Records.SnippetsOfPost` | app/Repositories/SnippetRepository.php:25-31 | exactly the post's snippets, each as many times as the table holds it (once, by `SameIdSameRow`) |
| `Records.SnippetsOfPostOrdered` | app/Repositories/SnippetRepository.php:27-30 | a post's snippets come in `block_index` order |
| `Records.CommentsOfSnippet` | app/Repositories/CommentRepository.php:66-69 | exactly the snippet's comments, each as many times as the table holds it |
| `Records.Replies` | app/Models/Comment.php:66-69 | exactly the comments whose parent is the given one, each as many times as the table holds it |
| `Records.RepliesOrdered` | app/Models/Comment.php:66-69 | replies come in `created_at` order |
| `Records.ToggleLikeCount` | app/Services/CommentService.php:177-189 | toggling a like moves that target's like count by exactly one, up or down |
| `Records.ToggleLikeOtherTarget` | app/Services/PostService.php:281-293 | toggling a like leaves every other target's like count alone |
| `Common.ToggleTwice` | app/Services/CommentService.php:177-185 | flipping the same like or reaction twice restores the table |
| `Store.CascadeSound` | database/migrations/2025_12_06_091744_create_comments_table.php:17-18 | the cascade removes the deleted rows and every reply of a removed row, and leaves a table whose foreign keys all resolve |
| `PostService.SuffixedInjective` | app/Services/PostService.php:35-37 | different counts give different slugs |
| `PostService.SmallestFreeSlugUnique` | app/Services/PostService.php:32-37 | the smallest-free-suffix rule determines the slug |
| `PostService.TakenSuffixesBound` | app/Services/PostService.php:35-37 | at most as many suffixes can be taken as there are posts, so the search ends |
| `PostService.UniqueSlug` | app/Services/PostService.php:32-37 | the base slug if free, else the base with the smallest free count, always appended to the original base |
| `PostService.SnippetRowsSpec` | app/Services/PostService.php:50-63 | one row per code block, in body order; each `block_index` is the block's position in the whole body, so the indices strictly increase; the language defaults to `text` |
| `PostService.ExtractSnippets` | app/Services/PostService.php:50-63 | the loop with its running `$blockIndex` builds the rows of `SnippetRows` |
| `PostService.MaterializeRow` | app/Services/PostService.php:65-67 | `createMany` stores row i under the post with id `next + i` |
| `PostService.AppendFreshKeepsTable` | app/Services/PostService.php:65-67 | appending the new snippets keeps ids unique and keeps the old ids |
| `PostService.VisibilityOrPublic` | app/Services/PostService.php:28 | the given visibility, or `public` when absent |
| `PostService.AppendPostKeepsPosts` | app/Services/PostService.php:40-47 | a new post with a free slug keeps post ids and slugs unique |
| `PostService.InsertPost` | app/Services/PostService.php:40-47 | the posts table grows by exactly the new post |
| `PostService.AddSnippets` | app/Services/PostService.php:49-67 | the snippets table grows by exactly the body's code blocks, numbered consecutively |
| `PostService.CreatePost` | app/Services/PostService.php:22-92 | as intended, for a post whose tags are not stored: the new post has the smallest free slug, the visibility or `public`, and one snippet per code block |
| `PostService.OwnPost` | app/Services/PostService.php:175-179 | fails with the same error for a missing post and for another user's post |
| `PostService.Patched` | app/Services/PostService.php:182-210 | exactly the supplied fields among title, body, visibility and meta change, plus the chosen slug |
| `PostService.EmptyPatchIsIdentity` | app/Services/PostService.php:182-210 | an update supplying nothing leaves the post as it was |
| `PostService.PatchedIdempotent` | app/Services/PostService.php:182-210 | applying the same update twice equals applying it once |
| `PostService.SnippetIdsOf` | app/Services/PostService.php:228 | every snippet of the post is among the deleted ids |
| `PostService.ReplacePostKeepsPosts` | app/Services/PostService.php:210 | replacing a post by one with a slug no other post has keeps ids and slugs unique |
| `PostService.UpdatedSlug` | app/Services/PostService.php:184-196 | the slug changes only when the new title's slug differs; then the smallest free suffix is chosen, ignoring the post itself |
| `PostService.UpdatePost` | app/Services/PostService.php:173-258 | as intended, for an update whose tags are not stored: refused without change unless the caller owns it; otherwise only supplied fields change, and a supplied body deletes and recreates all of the post's snippets |
| `PostService.RecreateSnippets` | app/Services/PostService.php:226-250 | the post's snippets (and, by cascade, their comments) are deleted, then recreated from the body |
| `PostService.DeletePost` | app/Services/PostService.php:260-271 | refused without change unless the caller owns it; otherwise the post, its snippets and all their comments go |
| `PostService.TagStepAsWritten` | app/Services/PostService.php:69-80 | the tag step throws on the undefined `tags()` relation exactly when it runs: for a non-empty list in `createPost`, for any supplied list in `updatePost` |
| `PostService.CreatePostAsWritten` | app/Services/PostService.php:22-92 | with a non-empty tag list nothing is stored and the error is the undefined `tags()` relation; without tags the post and its snippets are stored |
| `PostService.UpdatePostAsWritten` | app/Services/PostService.php:173-223 | a missing or foreign post is refused; otherwise supplied tags roll the update back with the undefined `tags()` error; without tags the supplied fields change |
| `PostService.TogglePostLikeAsWritten` | app/Services/PostService.php:273-295 | always an error: "Post not found" exactly for a missing post, otherwise the undefined `likes()` relation |
| `PostService.LikingAnExistingPostThrows` | app/Services/PostService.php:281 | an existing post is found, yet liking it fails on the undefined `likes()` relation |
| `PostService.TogglePostLike` | app/Services/PostService.php:273-295 | as intended: fails exactly for a missing post; otherwise flips the like and returns the new state and the count, exactly one above or below the count before |
| `PostResource.SourceOf` | app/Http/Resources/PostResource.php:22-24 | `allComments` if loaded, else `comments` if loaded, else nothing |
| `PostResource.LineTotalsCount` | app/Http/Resources/PostResource.php:29-43 | a line has an entry iff a counted comment starts on it, and the entry sums 1 plus the loaded replies of each; `end_line` plays no part |
| `PostResource.LineTotalsKeys` | app/Http/Resources/PostResource.php:30-32 | every key is the start line of an inline comment with a truthy start line |
| `PostResource.SnippetEntryOf` | app/Http/Resources/PostResource.php:20-27 | every loaded snippet has an entry keyed by its id as a string, even without comments |
| `PostResource.SnippetEntriesKeys` | app/Http/Resources/PostResource.php:26-27 | the index has no keys other than the loaded snippets' ids |
| `PostResource.IndexWithoutSnippets` | app/Http/Resources/PostResource.php:18-20 | without loaded snippets the index is empty |
| `PostResource.ReplyCountedTwice` | app/Http/Resources/PostResource.php:29-42 | a reply loaded as its own row and among its parent's replies is counted twice |
| `PostResource.CountLines` | app/Http/Resources/PostResource.php:29-44 | the counter loop builds the `LineTotals` map |
| `PostResource.ToArray` | app/Http/Resources/PostResource.php:80-81 | `inlineIndex` and `inline_comments_index` are the same map |
| `CommentNotifications.ReplyStep` | app/Listeners/SendCommentNotification.php:37-54 | the reply step adds at most one notification after those already created |
| `CommentNotifications.HandleShape` | app/Listeners/SendCommentNotification.php:14-55 | at most two notifications, each of one of the two types, about this comment, and never to the commenter |
| `CommentNotifications.HandleResolved` | app/Listeners/SendCommentNotification.php:21-53 | the post author is notified iff not the commenter; the parent's author iff the comment is a reply and the parent is not the commenter's |
| `CommentNotifications.SameAuthorNotifiedTwice` | app/Listeners/SendCommentNotification.php:21-53 | a reply to the post author's own comment notifies that author twice, once per type |
| `CommentNotifications.StoredRows` | app/Listeners/SendCommentNotification.php:22-52 | each stored row has its draft's recipient, type and payload, a fresh id, and `read = false` |
| `CommentNotifications.StoredChain` | app/Listeners/SendCommentNotification.php:21-54 | creating the first notification and then the rest stores the whole list |
| `CommentNotifications.Create` | app/Listeners/SendCommentNotification.php:22-33 | one unread row is appended under the next id |
| `CommentNotifications.NotifyParent` | app/Listeners/SendCommentNotification.php:37-54 | the table grows by the rows the reply step adds |
| `CommentNotifications.NotifyPostAuthor` | app/Listeners/SendCommentNotification.php:21-54 | the post-author notification is stored, then the reply step's |
| `CommentNotifications.NotifyAuthors` | app/Listeners/SendCommentNotification.php:21-54 | the table grows by exactly the rows both steps decide |
| `CommentNotifications.HandleCreated` | app/Listeners/SendCommentNotification.php:14-55 | the table grows by exactly the rows `Handle` decides, and the error is the relation found null |
| `CommentBroadcast.BroadcastAs` | app/Events/CommentCreatedBroadcast.php:49-52 | the name is always `comment.created` |
| `CommentBroadcast.PostChannel` | app/Events/CommentCreatedBroadcast.php:42 | the channel is `post.` followed by the post id |
| `CommentBroadcast.PostChannelInjective` | app/Events/CommentCreatedBroadcast.php:42 | different posts have different channels |
| `CommentBroadcast.BroadcastPost` | app/Events/CommentCreatedBroadcast.php:35-39 | the comment's post id, else its snippet's; none when neither is truthy |
| `CommentBroadcast.BroadcastOn` | app/Events/CommentCreatedBroadcast.php:33-44 | no channel exactly when no post is found, else the post's one channel |
| `CommentBroadcast.SamePostSameChannel` | app/Events/CommentCreatedBroadcast.php:35-43 | every comment of a post reaches the same channel, whether it records the post or hangs off one of its snippets |
| `CommentBroadcast.BroadcastWith` | app/Events/CommentCreatedBroadcast.php:59-83 | the payload copies the nine comment columns unchanged, the user as {id, name}, and the snippet as {id, language} or null |
| `CommentBroadcast.LoadSnippet` | app/Events/CommentCreatedBroadcast.php:25 | the loaded snippet is the row named by `snippet_id`, or none |
| `StoreCommentRequest.Validated` | app/Http/Requests/StoreCommentRequest.php:22-31 | the input validates iff every rule passes: existing snippet, a parent that is absent, null, blank or existing, both lines >= 1, body of 1 to 5000 characters |
| `StoreCommentRequest.BlankParentIdIsAbsent` | app/Http/Requests/StoreCommentRequest.php:26 | a `parent_id` that trims to `''` skips `integer` and `exists`, exactly as if it were absent, and yields no parent |
| `StoreCommentRequest.RangeOrderNotChecked` | app/Http/Requests/StoreCommentRequest.php:27-28 | an end line before the start line passes |
| `StoreCommentRequest.LineStringAccepted` | app/Http/Requests/StoreCommentRequest.php:27 | a line given as a numeric string passes `integer|min:1` |
| `Validation.IntegerStrings` | app/Http/Requests/StoreCommentRequest.php:25-28 | `integer` accepts the decimal form of every natural and reads back its value |
| `StorePostRequest.BlockOf` | app/Http/Requests/StorePostRequest.php:27-29 | a valid block has type `text` or `code`, a content string, and a language when it is code |
| `StorePostRequest.StringsOf` | app/Http/Requests/StorePostRequest.php:31 | each tag is the string given, of at most 50 characters unless it trims to `''` (the rules are then skipped) |
| `StorePostRequest.Validated` | app/Http/Requests/StorePostRequest.php:22-35 | the input validates iff every rule passes: title of at most 255, non-empty body of valid blocks, tags of at most 50 or blank, visibility absent, null, blank or listed |
| `StorePostRequest.BlankOptionalIsAbsent` | app/Http/Requests/StorePostRequest.php:30-34 | a `tags`, `visibility` or `meta` that trims to `''` skips its rules, exactly as if it were absent, and adds nothing to the validated data |
| `StorePostRequest.EmptyBodyRejected` | app/Http/Requests/StorePostRequest.php:26 | a body without blocks fails `required` |
| `StorePostRequest.CodeNeedsLanguage` | app/Http/Requests/StorePostRequest.php:29 | a code block with a null language fails; a text block may leave it null |
| `Reactions.TargetOf` | app/Http/Controllers/Api/ReactionController.php:23 | `post` maps to a post target; any other value to a comment |
| `Reactions.Counts` | app/Http/Controllers/Api/ReactionController.php:45-50 | a key for each type present on the target, holding its number of rows |
| `Reactions.ToggleMovesOneCount` | app/Http/Controllers/Api/ReactionController.php:25-42 | toggling moves the toggled type's count on the target by one and no other type's |
| `Reactions.ToggleOtherTarget` | app/Http/Controllers/Api/ReactionController.php:25-42 | other targets' counts do not move |
| `Reactions.ToggleReaction` | app/Http/Controllers/Api/ReactionController.php:16-57 | an unlisted type is refused without change; otherwise the row is deleted if present (`removed`) or inserted (`added`), and the counts are those after |
| `Reactions.Index` | app/Http/Controllers/Api/ReactionController.php:62-82 | exactly the target's reactions, with their per-type counts |
| `Follows.IsFollowing` | app/Http/Controllers/Api/FollowController.php:57-65 | `check` is true iff the caller is among the user's followers |
| `Follows.FollowAddsFollower` | app/Http/Controllers/Api/FollowController.php:27-32 | a new follow raises the followed user's follower count by exactly one |
| `Follows.FollowUser` | app/Http/Controllers/Api/FollowController.php:15-35 | refused without change for oneself or a user already followed; otherwise the pair is added |
| `Follows.UnfollowUser` | app/Http/Controllers/Api/FollowController.php:40-52 | the pair is removed whether or not present, and `following` is false |
| `Follows.FollowThenCheck` | app/Http/Controllers/Api/FollowController.php:27-60 | after a follow `check` is true; after an unfollow it is false; follow then unfollow restores the relation |
| `Follows.FollowKeepsNoSelfFollow` | app/Http/Controllers/Api/FollowController.php:19-21 | nobody comes to follow themself |
| `Bookmarks.BookmarkOf` | app/Http/Controllers/Api/BookmarkController.php:20-24 | the caller's bookmark of the post, or none when there is none |
| `Bookmarks.AppendKeepsOnePerPost` | database/migrations/2025_12_07_000003_create_bookmarks_table.php:21 | adding an unbookmarked pair keeps one bookmark per (user, post) |
| `Bookmarks.StoreBookmark` | app/Http/Controllers/Api/BookmarkController.php:16-32 | an existing bookmark is returned untouched, folder included; otherwise one is created with the requested folder |
| `Bookmarks.OneBookmarkOfPair` | database/migrations/2025_12_07_000003_create_bookmarks_table.php:21 | in a valid table a user has at most one bookmark per post |
| `Bookmarks.StoreIdempotent` | app/Http/Controllers/Api/BookmarkController.php:20-26 | storing twice finds the first call's bookmark |
| `Bookmarks.Without` | app/Http/Controllers/Api/BookmarkController.php:41-44 | exactly the rows other than the caller's bookmark of that post remain, each as many times as before |
| `Bookmarks.Destroy` | app/Http/Controllers/Api/BookmarkController.php:37-49 | only the caller's bookmark of that post is removed |
| `Bookmarks.WithoutKeepsTable` | app/Http/Controllers/Api/BookmarkController.php:41-44 | deleting keeps ids valid and one bookmark per pair |
| `Bookmarks.Index` | app/Http/Controllers/Api/BookmarkController.php:54-69 | exactly the caller's bookmarks, in the given folder when a truthy one is supplied, each as many times as the table holds it |
| `NotificationInbox.Index` | app/Http/Controllers/Api/NotificationController.php:21-26 | exactly the caller's notifications, unread only when asked, each as many times as the table holds it, newest first |
| `NotificationInbox.FalseStringStillFilters` | app/Http/Controllers/Api/NotificationController.php:19-24 | `unread_only=false` still filters |
| `NotificationInbox.UnreadCount` | app/Http/Controllers/Api/NotificationController.php:37 | zero exactly when the caller has nothing unread |
| `NotificationInbox.MarkIf` | app/Http/Controllers/Api/NotificationController.php:56 | only the `read` flag may change, and only to true |
| `NotificationInbox.MarkReadEffect` | app/Http/Controllers/Api/NotificationController.php:54-56 | listed notifications of the caller become read; any other row, including another user's listed one, stays |
| `NotificationInbox.MarkReadRows` | app/Http/Controllers/Api/NotificationController.php:45-61 | invalid ids are refused without change; otherwise the table becomes `MarkRead` of it |
| `NotificationInbox.MarkAllReadEffect` | app/Http/Controllers/Api/NotificationController.php:70-72 | afterwards the caller has nothing unread, and other users' rows are unchanged |
| `NotificationInbox.MarkAllIsMarkOwn` | app/Http/Controllers/Api/NotificationController.php:54-72 | marking all is marking every id the caller owns |
| `NotificationInbox.MarkAllReadRows` | app/Http/Controllers/Api/NotificationController.php:66-77 | the table becomes `MarkAllRead` of it |
| `Tabs.IndexOf` | resources/js/composables/useTabs.ts:29 | the first tab with that id, or none when no tab has it |
| `Tabs.RemoveAt` | resources/js/composables/useTabs.ts:32 | exactly that tab is removed and the others keep their order |
| `Tabs.ActiveAfterRemove` | resources/js/composables/useTabs.ts:35-42 | the tab at max(0, i-1) of the rest, or none when no tab remains; an empty id gives none |
| `Tabs.RemoveAtKeepsUnique` | resources/js/composables/useTabs.ts:28-43 | removal keeps ids unique, and the removed id is gone |
| `Tabs.RemoveAtKeepsOthers` | resources/js/composables/useTabs.ts:32 | every other open id is still open |
| `Tabs.TabList.AddTab` | resources/js/composables/useTabs.ts:16-26 | an open id is only activated; a new tab is appended and activated; ids stay unique |
| `Tabs.TabList.RemoveTab` | resources/js/composables/useTabs.ts:28-43 | an unknown id changes nothing; otherwise that tab goes, and if it was active its left neighbour (or the new first tab) becomes active |
| `Tabs.TabList.SetActiveTab` | resources/js/composables/useTabs.ts:45-53 | null clears the active id; an id takes effect only when a tab has it |
| `Tabs.TabList.GetActiveTab` | resources/js/composables/useTabs.ts:55-57 | the open tab with the active id, or null; in a valid list, non-null exactly when an id is active |
| `Tabs.AddTabTwice` | resources/js/composables/useTabs.ts:18-25 | adding a new tab keeps ids unique and puts it last |
| `Tabs.IndexOfAppend` | resources/js/composables/useTabs.ts:24 | an appended new tab is found at the end |
| `PostState.Current` | resources/js/composables/usePostState.js:47 | the post's deltas, or zero deltas |
| `PostState.WithOptimistic` | resources/js/composables/usePostState.js:22-30 | the base stats unchanged without an entry; otherwise the likes and comments plus the deltas, other fields kept |
| `PostState.Marked` | resources/js/composables/usePostState.js:38-44 | the post is in the set iff marked, and no other member changes |
| `PostState.LikeMoved` | resources/js/composables/usePostState.js:47-51 | the post's likes delta moves by one, its comments delta stays, other posts' entries stay |
| `PostState.LikeReverted` | resources/js/composables/usePostState.js:65-83 | the likes delta moves back only if the post still has an entry |
| `PostState.CommentAdded` | resources/js/composables/usePostState.js:100-104 | the comments delta rises by one |
| `PostState.CommentRemoved` | resources/js/composables/usePostState.js:113-117 | the comments delta drops by one, never below zero |
| `PostState.WithoutTemp` | resources/js/composables/usePostState.js:109 | exactly the pending comments with another id |
| `PostState.RevertUndoesLike` | resources/js/composables/usePostState.js:47-85 | the error path restores every post's displayed counts |
| `PostState.LikeMovesOne` | resources/js/composables/usePostState.js:47-51 | the displayed like count moves by exactly one and nothing else moves |
| `PostState.AddThenRemoveComment` | resources/js/composables/usePostState.js:90-117 | removing right after adding restores a non-negative comments delta |
| `PostState.RemoveFreshPending` | resources/js/composables/usePostState.js:90-117 | removing a freshly added temp id gives back the earlier list |
| `PostState.ToggleThenFailRestoresLike` | resources/js/composables/usePostState.js:34-85 | toggle then error restores the liked flag to `wasLiked` |
| `PostState.PostStore.ToggleLike` | resources/js/composables/usePostState.js:33-51 | liked becomes not(wasLiked); the like and pending marks follow it, and the likes delta moves by one |
| `PostState.PostStore.LikeSucceeded` | resources/js/composables/usePostState.js:60-62 | only the pending mark is cleared |
| `PostState.PostStore.LikeFailed` | resources/js/composables/usePostState.js:63-85 | the like is restored, the ±1 undone, and the pending mark cleared |
| `PostState.PostStore.AddOptimisticComment` | resources/js/composables/usePostState.js:90-105 | exactly one pending entry is appended and the comments delta rises by one |
| `PostState.PostStore.RemoveOptimisticComment` | resources/js/composables/usePostState.js:107-118 | entries with that temp id go and the comments delta drops by one, not below zero |
| `PostState.PostStore.ClearOptimisticComments` | resources/js/composables/usePostState.js:120-122 | only that post's pending comments go |
| `PostState.PostStore.SyncPostLiked` | resources/js/composables/usePostState.js:124-130 | membership becomes the given flag |
| `PostState.PostStore.ResetOptimisticStats` | resources/js/composables/usePostState.js:132-134 | only that post's deltas go |
| `Avatar.Initials` | resources/js/utils/avatar.ts:17-24 | at most two characters; a missing or empty name gives `?` |
| `Avatar.InitialsComeFromPieces` | resources/js/utils/avatar.ts:17-23 | each initial is the upper-cased first character of one space-separated piece |
| `Avatar.TwoWordInitials` | resources/js/utils/avatar.ts:17-23 | a first and last name give their two first letters, upper-cased |
| `Avatar.SpaceNameHasNoInitials` | resources/js/utils/avatar.ts:17-24 | a name of one space gives empty initials, not `?` |
| `Avatar.ColorIndex` | resources/js/utils/avatar.ts:38-40 | always inside the 8-colour palette; 0 without a name |
| `Avatar.PalettesAgree` | resources/js/utils/avatar.ts:27-71 | the two palettes hold the same colours |
| `Avatar.GetAvatarUrl` | resources/js/utils/avatar.ts:11-45 | a non-empty uploaded URL is returned unchanged; otherwise a placeholder with the initials and a palette colour |
| `Avatar.GenerateDataUriAvatar` | resources/js/utils/avatar.ts:52-88 | the circle has the requested size and a palette colour |
| `Avatar.SameAvatarBothWays` | resources/js/utils/avatar.ts:17-77 | without an upload, both helpers use the same initials and the same colour |
| `Syntax.TrimStart` | resources/js/util/syntax.ts:84 | the result does not start with white space |
| `Syntax.TrimEnd` | resources/js/util/syntax.ts:84 | the result does not end with white space |
| `Syntax.NormalizeLanguage` | resources/js/util/syntax.ts:83-88 | always a listed language or `text`; `text` exactly when the lower-cased, trimmed input is not listed |
| `Syntax.ListedLanguagesAreFixed` | resources/js/util/syntax.ts:64-87 | every listed language maps to itself |
| `Syntax.NormalizeIdempotent` | resources/js/util/syntax.ts:83-88 | normalising twice is normalising once |
| `Syntax.TrimPadded` | resources/js/util/syntax.ts:84 | trimming ignores white space padding on both sides |
| `Syntax.NormalizePadded` | resources/js/util/syntax.ts:84 | white space around the input makes no difference |
| `Syntax.NormalizeIgnoresCaseAndPadding` | resources/js/util/syntax.ts:84 | letter case and surrounding white space make no difference |

## Left out

- **HTTP handling.** Redirects, JSON envelopes, status codes and flash messages are
  left out. A controller's outcome is a `Result`.
- **Thin delegating actions.** The controller's `store`, `update`, `destroy`,
  `toggleLike` and `updateInlineComment`
  (app/Http/Controllers/Web/CommentController.php:26-79, 121-130) only forward to the
  service methods that are modelled.
- **`resolveThread`.** It stores nothing and only echoes the flag back.
- **Frameworks and side effects:**
  - `DB::transaction` wraps `createPost`, `updatePost` and `createComment`. A modelled
    step fails after a write in two places, and both rollbacks are modelled:
    - in `createComment` it is the listener (`CommentService.CreateComment`);
    - in the two post operations it is the tag step (`PostService.CreatePostAsWritten`
      and `PostService.UpdatePostAsWritten`);
  - app/Events/CommentCreated.php is not part of this model. The event is taken to carry
    the new comment to `SendCommentNotification`;
  - broadcasting, `Cache` and `\Log` are left out.
- `CommentService.CreateComment` restores the id counter on a rollback. MySQL does not
  roll back `AUTO_INCREMENT`, which only changes the ids later rows receive.
- **Unmodelled PostService operations:**
  - `getPost`, `getAllPosts`, `searchPosts` and `getTrendingPosts` are ORM loading,
    pagination and database search;
  - `getCommentsByPost` and `getCommentsBySnippet` in CommentService are the same kind of
    code.
- **Tags.** `StorePostRequest.Validated` checks them. In the source, `createPost` with a
  non-empty list and `updatePost` with any `tags` throw on the undefined `tags()` relation
  and roll back (see "## Findings"). `PostService.CreatePost` and `PostService.UpdatePost`
  are the tagless intended behaviour. The `tags` table and `Tag::firstOrCreate` are not
  part of this model, so no tag is ever stored.
- **`Str::slug`.** It is a parameter (`slugify`) and is not interpreted.
- **Mass assignment.** `Post::$fillable` lists only user_id, title and body, which would
  make Eloquent drop slug, visibility and meta. The model stores the columns the
  service passes.
- **Time.** Timestamps are naturals passed in as `now`. ISO-8601 formatting,
  `strtotime` and `updated_at` are left out.
- **Users** are rows with an id and a name. The user name and avatar inside thread
  messages and `storeThread`'s JSON are left out.
- **Route-model binding.** Binding `User $user` and `Post $post` is assumed to have
  succeeded, so its 404 is left out.
- `CommentController.ThreadsFor` and `CommentController.GetThreads` take the `line` query
  parameter as an already-parsed integer or null. Absent, `""` and `"0"` are all falsy and
  give the empty response. Other strings, such as `"abc"`, `"1.5"` or `" 3"`, which PHP 8
  compares with the integer line columns, are not modelled.
- **Route ids.** A negative route id finds no row. String-to-integer casts of route ids
  (`(int) $id`) are taken as already done.
- **`is_numeric`.**
  - `CommentController.ResolveSnippetId` accepts decimal integers (with optional sign) as
    numeric.
  - Fractions, exponents and surrounding white space, which PHP's `is_numeric` also
    accepts, are left out.
- **Input middleware.** The validators see the request as sent. The application's
  middleware stack is not part of this model. With Laravel's default `TrimStrings` and
  `ConvertEmptyStringsToNull`, a blank string arrives as null before validation. The
  validated data reads a blank optional field as absent, as that middleware would make it.
- `StorePostRequest.Validated` promises tags of at most 50 characters only for tags that
  are not blank, because the validator skips `string|max:50` on a string that trims to
  `''`.
- **`Validation`'s `integer` rule** covers decimal integer strings and integers. Booleans,
  surrounding white space and the `PHP_INT_MAX` bound are left out.
- **Pagination.** `per_page`, `paginate(20)` and page metadata are left out; `Index`
  returns the whole filtered list.
- **Ordering by `start_line`.** MySQL puts NULL first.
  - `Records.CommentsOfSnippet` treats a null start line as the smallest key.
  - Non-inline comments on a snippet are ordered like that.
- **The inline comment index** covers only the index part of `PostResource`. The other
  resource fields are plain copies.
- **`CommentNotifications.HandleCreated`** ends with an error when a relation the handler
  reads is null, where PHP would throw.
  - On its own it keeps the rows written before that point. It only runs inside
    `createComment`'s transaction, though, and `CommentService.CreateComment` rolls those
    rows back together with the comment.
  - The commenter's name in the payload comes from the users table.
- **The commenter's foreign key.** `comments.user_id` references `users`
  (database/migrations/2025_12_06_091744_create_comments_table.php:16). The model does
  not check it: `CommentService.InsertComment` has no guard for a missing commenter, and
  `Store.Consistent` does not constrain `user_id`. The id comes from the authenticated user.
- **Reactions, likes and follows** are sets, one row per key. The code reads only the
  `first()` row, so duplicate rows are not modelled.
- **Network calls.** In `usePostState.js` the `router.post` call is left out. The success
  and error continuations are the methods `LikeSucceeded` and `LikeFailed`.
- **Temporary comment ids** built from `Date.now` and `Math.random` are a parameter. A
  pending comment keeps only its body of the comment object's fields.
- **Post ids in the client store** are naturals. JavaScript's distinction between number
  and string keys is left out.
- **The exported refs of `useTabs`** are left out, as are the optional `postId` and
  `postData` of a tab, which the operations never read.
- **Avatar output.** The URL text, `encodeURIComponent`, the SVG markup and `btoa` are
  left out. The default size 64 is passed explicitly.
- **`Avatar.Initials`** maps case in ASCII only.
  - JavaScript's full Unicode `toUpperCase` (which can lengthen a string) is left out.
  - `charCodeAt` on characters outside the Basic Multilingual Plane is left out.
- **`Syntax.NormalizeLanguage`** lower-cases in ASCII only. JavaScript's `trim` white
  space set is modelled in full.
- **Highlighting.** DOM highlighting (`highlightCode`, `highlightAll`), `prism-init.ts`
  and `shiki-init.ts` are left out.

## Findings

| source | as written | input that shows it | evidently intended | confidence | as-written member | corrected member |
|---|---|---|---|---|---|---|
| app/Services/PostService.php:281 | `toggleLike` calls `$post->likes()`, but app/Models/Post.php declares only `user()`, `snippets()` and `comments()`, so Eloquent throws `BadMethodCallException` | any existing post id: the post is found and the call then fails | a `likes()` morph relation on `Post`, like the one app/Models/Comment.php:71-74 declares, so that the like toggles | high (not executed) | `PostService.TogglePostLikeAsWritten` | `PostService.TogglePostLike` |
| app/Services/PostService.php:79 | `createPost` ends its tag step with `$post->tags()->sync(...)`, but `Post` declares no `tags()` relation, so the call throws and the transaction rolls back the new post and its snippets | any valid input with at least one tag | a `tags()` relation on `Post`, so that a tagged post is stored with its tags | high (not executed) | `PostService.CreatePostAsWritten` | `PostService.CreatePost` |
| app/Services/PostService.php:222 | `updatePost` calls `$post->tags()->sync(...)` whenever `tags` is set, an empty list included, so the call throws and the update is rolled back | an update by the owner that supplies `tags` | the same relation, so that the update stands and the tags are replaced | high (not executed) | `PostService.UpdatePostAsWritten` | `PostService.UpdatePost` |
