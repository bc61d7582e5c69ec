/**
 * `CommentService`: creating a comment (the post, snippet and line-range guards, the
 * inferred post id, and the notification listener inside the same transaction), the
 * author-only update and delete, and the like toggle.
 */
module CommentService {
  import opened Common
  import opened Records
  import opened Store
  import opened CommentModel
  import Listener = CommentNotifications

  /** The `$data` array handed to `createComment`; an absent key is `None`. */
  datatype CommentData = CommentData(
    isInline: Option<bool>, postId: Option<int>, snippetId: Option<int>, parentId: Option<int>,
    startLine: Option<int>, endLine: Option<int>, body: string)

  /** The exceptions the service throws, plus the database's refusal of a dangling foreign key. */
  datatype CommentError =
    | PostNotFound
    | SnippetNotFound
    | LineRangeRequired
    | InvalidLineRange(totalLines: nat)
    | PostOrSnippetRequired
    | ForeignKeyViolation
    | Unauthorized
    | CommentNotFound
    | ListenerFailed(cause: Listener.ListenerError)

  /** `count(explode("\n", $code_text))`: one more line than there are newlines. */
  function LineCount(code: string): (n: nat)
    ensures n == Occurrences(code, '\n') + 1
    ensures n >= 1
  {
    |Explode(code, '\n')|
  }

  /** A trailing newline adds one (empty) line that a comment may target. */
  lemma TrailingNewlineAddsLine(code: string)
    ensures LineCount(code + "\n") == LineCount(code) + 1
  {
    OccurrencesAppend(code, "\n", '\n');
  }

  /**
   * Code of two lines ending in a newline, like the feature test's snippet, splits into
   * three pieces, the last one empty; so line 3 is accepted and line 10 is not.
   */
  lemma {:induction false} TwoLinesAndTrailingNewline(a: string, b: string)
    requires '\n' !in a && '\n' !in b
    ensures Explode(a + "\n" + b + "\n", '\n') == [a, b, ""]
    ensures LineCount(a + "\n" + b + "\n") == 3
    ensures RangeOk(3, 3, LineCount(a + "\n" + b + "\n")) && !RangeOk(10, 10, LineCount(a + "\n" + b + "\n"))
  {
    var rest := b + "\n";
    assert a + "\n" + b + "\n" == a + ['\n'] + rest;
    ExplodeAfterPrefix(a, '\n', rest);
    assert rest == b + ['\n'] + "";
    ExplodeAfterPrefix(b, '\n', "");
    assert Explode("", '\n') == [""];
  }

  /** The range check `$startLine < 1 || $endLine > $totalLines || $startLine > $endLine`, negated. */
  predicate RangeOk(startLine: int, endLine: int, totalLines: nat)
  {
    1 <= startLine <= endLine <= totalLines
  }

  /** Whether `createComment` takes the inline branch (`$isInline && $snippetId`). */
  predicate InlinePath(data: CommentData)
  {
    data.isInline == Some(true) && IsSet(data.snippetId)
  }

  /** The guards of `createComment`: the post id it will store, or the exception it throws. */
  function Guards(posts: seq<Post>, snippets: seq<Snippet>, data: CommentData): Result<int, CommentError>
  {
    if IsSet(data.postId) && Lookup(posts, PostId, data.postId.value).None? then Err(PostNotFound)
    else if InlinePath(data) then
      match Lookup(snippets, SnippetId, data.snippetId.value)
      case None => Err(SnippetNotFound)
      case Some(s) =>
        if data.startLine.None? || data.endLine.None? then Err(LineRangeRequired)
        else if !RangeOk(data.startLine.value, data.endLine.value, LineCount(s.codeText)) then
          Err(InvalidLineRange(LineCount(s.codeText)))
        else Ok(if IsSet(data.postId) then data.postId.value else s.postId)
    else
      var inferred :=
        if !IsSet(data.postId) && IsSet(data.snippetId) && Lookup(snippets, SnippetId, data.snippetId.value).Some?
        then Some(Lookup(snippets, SnippetId, data.snippetId.value).value.postId as int)
        else data.postId;
      if !IsSet(inferred) then Err(PostOrSnippetRequired) else Ok(inferred.value)
  }

  /** A nullable key resolves when it is null or names an existing row. */
  predicate KeyResolves<T(==,!new)>(rows: seq<T>, idOf: T -> nat, key: Option<int>)
  {
    key.None? || Lookup(rows, idOf, key.value).Some?
  }

  /** The id a resolved nullable key stores. */
  function KeyValue(key: Option<int>): Option<nat>
  {
    if key.Some? && key.value >= 0 then Some(key.value as nat) else None
  }

  /** The row `commentRepository->create` inserts, or the database's refusal of it. */
  function Insertion(posts: seq<Post>, snippets: seq<Snippet>, comments: seq<Comment>, data: CommentData,
                     userId: nat, postId: int, id: nat, now: nat): Result<Comment, CommentError>
  {
    if !(KeyResolves(posts, PostId, Some(postId)) && KeyResolves(snippets, SnippetId, data.snippetId)
         && KeyResolves(comments, CommentId, data.parentId)) then Err(ForeignKeyViolation)
    else Ok(Comment(
      id, userId, KeyValue(Some(postId)), KeyValue(data.snippetId), KeyValue(data.parentId),
      data.isInline == Some(true), data.startLine, data.endLine, data.body,
      now, None, false, None, None))
  }

  /** What `createComment` does: the new row, or the error, given the row id it would receive. */
  function CreateOutcome(posts: seq<Post>, snippets: seq<Snippet>, comments: seq<Comment>, data: CommentData,
                         userId: nat, id: nat, now: nat): Result<Comment, CommentError>
  {
    match Guards(posts, snippets, data)
    case Err(e) => Err(e)
    case Ok(postId) => Insertion(posts, snippets, comments, data, userId, postId, id, now)
  }

  /** A supplied post id that names no post fails with "Post not found". */
  lemma MissingPostFails(posts: seq<Post>, snippets: seq<Snippet>, comments: seq<Comment>, data: CommentData,
                         userId: nat, id: nat, now: nat)
    requires IsSet(data.postId) && forall p :: p in posts ==> p.id != data.postId.value
    ensures CreateOutcome(posts, snippets, comments, data, userId, id, now) == Err(PostNotFound)
  {
  }

  /**
   * On the inline path the snippet exists, both lines are given and
   * `1 <= start <= end <= LineCount(code_text)`; otherwise the call fails.
   */
  lemma {:induction false} InlineRangeChecked(posts: seq<Post>, snippets: seq<Snippet>, comments: seq<Comment>,
                                              data: CommentData, userId: nat, id: nat, now: nat)
    requires InlinePath(data)
    requires CreateOutcome(posts, snippets, comments, data, userId, id, now).Ok?
    ensures Lookup(snippets, SnippetId, data.snippetId.value).Some?
    ensures data.startLine.Some? && data.endLine.Some?
    ensures RangeOk(data.startLine.value, data.endLine.value,
                    LineCount(Lookup(snippets, SnippetId, data.snippetId.value).value.codeText))
  {
    if IsSet(data.postId) && Lookup(posts, PostId, data.postId.value).None? {
    }
  }

  /** An out-of-range inline comment fails, reporting the snippet's line count. */
  lemma OutOfRangeFails(posts: seq<Post>, snippets: seq<Snippet>, comments: seq<Comment>, data: CommentData,
                        userId: nat, id: nat, now: nat, s: Snippet)
    requires InlinePath(data) && !(IsSet(data.postId) && Lookup(posts, PostId, data.postId.value).None?)
    requires Lookup(snippets, SnippetId, data.snippetId.value) == Some(s)
    requires data.startLine.Some? && data.endLine.Some?
    requires !RangeOk(data.startLine.value, data.endLine.value, LineCount(s.codeText))
    ensures CreateOutcome(posts, snippets, comments, data, userId, id, now) == Err(InvalidLineRange(LineCount(s.codeText)))
  {
  }

  /**
   * A stored comment carries the caller, the supplied snippet, parent, inline flag, lines
   * and body unchanged, the post id supplied or else the snippet's, and no edit or
   * resolution yet.
   */
  lemma {:induction false} StoredRecord(posts: seq<Post>, snippets: seq<Snippet>, comments: seq<Comment>,
                                        data: CommentData, userId: nat, id: nat, now: nat)
    requires CreateOutcome(posts, snippets, comments, data, userId, id, now).Ok?
    ensures var c := CreateOutcome(posts, snippets, comments, data, userId, id, now).value;
      && c.id == id && c.userId == userId && c.createdAt == now
      && c.isInline == (data.isInline == Some(true))
      && c.startLine == data.startLine && c.endLine == data.endLine && c.body == data.body
      && (data.snippetId.Some? ==> c.snippetId.Some? && c.snippetId.value == data.snippetId.value)
      && (data.snippetId.None? ==> c.snippetId.None?)
      && (data.parentId.Some? ==> c.parentId.Some? && c.parentId.value == data.parentId.value)
      && (data.parentId.None? ==> c.parentId.None?)
      && c.postId.Some?
      && (IsSet(data.postId) ==> c.postId.value == data.postId.value)
      && (!IsSet(data.postId) ==> data.snippetId.Some? && c.postId.value == Lookup(snippets, SnippetId, data.snippetId.value).value.postId)
      && c.editedAt.None? && !c.resolved && c.resolvedAt.None? && c.resolvedBy.None?
  {
    var g := Guards(posts, snippets, data);
    assert g.Ok?;
    if !IsSet(data.postId) {
      assert IsSet(data.snippetId);
    }
  }

  /** Without a post id, and without a snippet that supplies one, a non-inline comment fails. */
  lemma NoPostIdFails(posts: seq<Post>, snippets: seq<Snippet>, comments: seq<Comment>, data: CommentData,
                      userId: nat, id: nat, now: nat)
    requires !InlinePath(data) && !IsSet(data.postId)
    requires !IsSet(data.snippetId) || Lookup(snippets, SnippetId, data.snippetId.value).None?
    ensures CreateOutcome(posts, snippets, comments, data, userId, id, now) == Err(PostOrSnippetRequired)
  {
  }

  /** A successful insert keeps the schema's integrity and hands out a fresh id. */
  lemma {:induction false} InsertKeepsValid(posts: seq<Post>, snippets: seq<Snippet>, comments: seq<Comment>,
                                            data: CommentData, userId: nat, postId: int, id: nat, now: nat)
    requires TableOk(comments, CommentId, id) && AllCommentRefsOk(comments, snippets, posts) && id >= 1
    requires Insertion(posts, snippets, comments, data, userId, postId, id, now).Ok?
    ensures TableOk(comments + [Insertion(posts, snippets, comments, data, userId, postId, id, now).value], CommentId, id + 1)
    ensures AllCommentRefsOk(comments + [Insertion(posts, snippets, comments, data, userId, postId, id, now).value], snippets, posts)
  {
    var c := Insertion(posts, snippets, comments, data, userId, postId, id, now).value;
    var r := comments + [c];
    IdsAppend(comments, CommentId, c);
    assert c.postId.Some? ==> Lookup(posts, PostId, postId).Some?;
    if c.snippetId.Some? {
      var s := Lookup(snippets, SnippetId, data.snippetId.value).value;
      assert s in snippets && s.id == c.snippetId.value;
    }
    if c.postId.Some? {
      var p := Lookup(posts, PostId, postId).value;
      assert p in posts && p.id == c.postId.value;
    }
    if c.parentId.Some? {
      var p := Lookup(comments, CommentId, data.parentId.value).value;
      assert p in comments && p.id == c.parentId.value;
    }
    forall x | x in r ensures CommentRefsOk(x, r, snippets, posts) {
      if x != c {
        assert CommentRefsOk(x, comments, snippets, posts);
      }
    }
  }

  /**
   * What `createComment`'s transaction commits. The `CommentCreated` event is handled
   * synchronously by `SendCommentNotification` inside the transaction, so a listener that
   * throws on a null relation rolls the insert back and the call fails.
   */
  function CreateResult(users: seq<User>, posts: seq<Post>, snippets: seq<Snippet>, comments: seq<Comment>,
                        data: CommentData, userId: nat, id: nat, now: nat): Result<Comment, CommentError>
  {
    Commit(users, posts, snippets, comments, CreateOutcome(posts, snippets, comments, data, userId, id, now))
  }

  /** The listener's verdict on the insert's outcome: commit it, or roll it back with the listener's error. */
  function Commit(users: seq<User>, posts: seq<Post>, snippets: seq<Snippet>, comments: seq<Comment>,
                  inserted: Result<Comment, CommentError>): Result<Comment, CommentError>
  {
    match inserted
    case Err(e) => Err(e)
    case Ok(c) =>
      var h := Listener.Handle(users, snippets, posts, comments + [c], c);
      if h.error.Some? then Err(ListenerFailed(h.error.value)) else Ok(c)
  }

  /** The notifications the listener creates for a freshly inserted comment. */
  function Notified(users: seq<User>, posts: seq<Post>, snippets: seq<Snippet>, comments: seq<Comment>,
                    c: Comment): seq<Listener.Draft>
  {
    Listener.Handle(users, snippets, posts, comments + [c], c).created
  }

  /**
   * A committed comment is the row the guards let through, and it hangs off an existing
   * snippet whose post exists: the listener reads both and throws otherwise.
   */
  lemma {:induction false} CommittedHasSnippet(users: seq<User>, posts: seq<Post>, snippets: seq<Snippet>,
                                               comments: seq<Comment>, data: CommentData, userId: nat, id: nat, now: nat)
    requires CreateResult(users, posts, snippets, comments, data, userId, id, now).Ok?
    ensures CreateOutcome(posts, snippets, comments, data, userId, id, now)
      == CreateResult(users, posts, snippets, comments, data, userId, id, now)
    ensures data.snippetId.Some? && Lookup(snippets, SnippetId, data.snippetId.value).Some?
    ensures Find(posts, PostId, Lookup(snippets, SnippetId, data.snippetId.value).value.postId).Some?
  {
    var c := CreateOutcome(posts, snippets, comments, data, userId, id, now).value;
    var s := Listener.SnippetOf(snippets, c);
    assert s.Some?;
    assert c.snippetId == KeyValue(data.snippetId);
    assert Lookup(snippets, SnippetId, data.snippetId.value) == s;
  }

  /**
   * A comment without a snippet, inline or post-level, never commits: the guards may accept
   * it, but the listener's `$comment->snippet->post` throws and the insert is rolled back.
   */
  lemma SnippetlessRollsBack(users: seq<User>, posts: seq<Post>, snippets: seq<Snippet>, comments: seq<Comment>,
                             data: CommentData, userId: nat, id: nat, now: nat)
    requires data.snippetId.None?
    ensures CreateOutcome(posts, snippets, comments, data, userId, id, now).Ok? ==>
      CreateResult(users, posts, snippets, comments, data, userId, id, now) == Err(ListenerFailed(Listener.NoSnippet))
    ensures CreateOutcome(posts, snippets, comments, data, userId, id, now).Err? ==>
      CreateResult(users, posts, snippets, comments, data, userId, id, now) == CreateOutcome(posts, snippets, comments, data, userId, id, now)
  {
  }

  /**
   * When the relations the listener reads resolve (the snippet, its post and the
   * commenter), the listener does not throw and the guarded insert commits as it is.
   */
  lemma {:induction false} CommitsWhenListenerResolves(users: seq<User>, posts: seq<Post>, snippets: seq<Snippet>,
                                                       comments: seq<Comment>, data: CommentData, userId: nat,
                                                       id: nat, now: nat, s: Snippet)
    requires CreateOutcome(posts, snippets, comments, data, userId, id, now).Ok?
    requires data.snippetId.Some? && Lookup(snippets, SnippetId, data.snippetId.value) == Some(s)
    requires Find(posts, PostId, s.postId).Some? && Find(users, Listener.UserId, userId).Some?
    ensures CreateResult(users, posts, snippets, comments, data, userId, id, now)
      == CreateOutcome(posts, snippets, comments, data, userId, id, now)
  {
    var c := CreateOutcome(posts, snippets, comments, data, userId, id, now).value;
    var all := comments + [c];
    assert c.snippetId == KeyValue(data.snippetId) && c.userId == userId;
    assert Listener.SnippetOf(snippets, c) == Some(s);
    if c.parentId.Some? {
      var p := Lookup(comments, CommentId, data.parentId.value).value;
      assert p in all && p.id == c.parentId.value;
    }
  }

  /** The guards and the insert of `createComment`, before the `CommentCreated` event. */
  method InsertComment(db: Db, data: CommentData, userId: nat, now: nat) returns (r: Result<Comment, CommentError>)
    requires db.Valid()
    modifies db`comments, db`nextId
    ensures db.Valid()
    ensures r == CreateOutcome(old(db.posts), old(db.snippets), old(db.comments), data, userId, old(db.nextId), now)
    ensures r.Ok? ==> db.comments == old(db.comments) + [r.value] && db.nextId == old(db.nextId) + 1
    ensures r.Err? ==> db.comments == old(db.comments) && db.nextId == old(db.nextId)
  {
    var isInline := data.isInline == Some(true);
    var postId := data.postId;
    var snippetId := data.snippetId;

    if IsSet(postId) {
      var post := Lookup(db.posts, PostId, postId.value);
      if post.None? {
        return Err(PostNotFound);
      }
    }

    if isInline && IsSet(snippetId) {
      var snippet := Lookup(db.snippets, SnippetId, snippetId.value);
      if snippet.None? {
        return Err(SnippetNotFound);
      }
      var totalLines := LineCount(snippet.value.codeText);
      var startLine, endLine := data.startLine, data.endLine;
      if startLine.None? || endLine.None? {
        return Err(LineRangeRequired);
      }
      if startLine.value < 1 || endLine.value > totalLines || startLine.value > endLine.value {
        return Err(InvalidLineRange(totalLines));
      }
      if !IsSet(postId) {
        postId := Some(snippet.value.postId);
      }
    } else {
      if !IsSet(postId) && IsSet(snippetId) {
        var snippet := Lookup(db.snippets, SnippetId, snippetId.value);
        if snippet.Some? {
          postId := Some(snippet.value.postId);
        }
      }
      if !IsSet(postId) {
        return Err(PostOrSnippetRequired);
      }
    }

    assert Guards(db.posts, db.snippets, data) == Ok(postId.value);
    r := Insertion(db.posts, db.snippets, db.comments, data, userId, postId.value, db.nextId, now);
    if r.Ok? {
      InsertKeepsValid(db.posts, db.snippets, db.comments, data, userId, postId.value, db.nextId, now);
      db.comments := db.comments + [r.value];
      db.nextId := db.nextId + 1;
    }
  }

  /**
   * `event(new CommentCreated($comment))` inside the transaction: the listener runs, and if
   * it throws, the transaction restores the tables as they were before the insert.
   */
  method DispatchCreated(db: Db, comment: Comment, now: nat,
                         comments0: seq<Comment>, notifications0: seq<Notification>, next0: nat)
    returns (err: Option<Listener.ListenerError>)
    requires db.Valid()
    requires Consistent(db.posts, db.snippets, comments0, db.bookmarks, notifications0, next0)
    modifies db`comments, db`notifications, db`nextId
    ensures db.Valid()
    ensures err == Listener.Handle(old(db.users), old(db.snippets), old(db.posts), old(db.comments), comment).error
    ensures err.None? ==> db.comments == old(db.comments)
    ensures err.None? ==> var drafts := Listener.Handle(old(db.users), old(db.snippets), old(db.posts), old(db.comments), comment).created;
      db.notifications == old(db.notifications) + Listener.Stored(drafts, old(db.nextId), now)
    ensures err.Some? ==> db.comments == comments0 && db.notifications == notifications0 && db.nextId == next0
  {
    err := Listener.HandleCreated(db, comment, now);
    if err.Some? {
      db.comments, db.notifications, db.nextId := comments0, notifications0, next0;
    }
  }

  /** `CommentService::createComment`, with the listener run inside its transaction. */
  method CreateComment(db: Db, data: CommentData, userId: nat, now: nat) returns (r: Result<Comment, CommentError>)
    requires db.Valid()
    modifies db`comments, db`notifications, db`nextId
    ensures db.Valid()
    ensures r == CreateResult(old(db.users), old(db.posts), old(db.snippets), old(db.comments), data, userId,
                              old(db.nextId), now)
    ensures r.Ok? ==> db.comments == old(db.comments) + [r.value]
    ensures r.Ok? ==>
      var drafts := Notified(old(db.users), old(db.posts), old(db.snippets), old(db.comments), r.value);
      db.notifications == old(db.notifications) + Listener.Stored(drafts, old(db.nextId) + 1, now)
    ensures r.Err? ==> db.comments == old(db.comments)
    ensures r.Err? ==> db.notifications == old(db.notifications) && db.nextId == old(db.nextId)
  {
    var comments0, notifications0, next0 := db.comments, db.notifications, db.nextId;
    ghost var users0, posts0, snippets0 := db.users, db.posts, db.snippets;
    assert Consistent(db.posts, db.snippets, comments0, db.bookmarks, notifications0, next0);
    r := InsertComment(db, data, userId, now);
    assert CreateResult(users0, posts0, snippets0, comments0, data, userId, next0, now)
      == Commit(users0, posts0, snippets0, comments0, r);
    if r.Err? {
      return;
    }
    var err := DispatchCreated(db, r.value, now, comments0, notifications0, next0);
    if err.Some? {
      r := Err(ListenerFailed(err.value));
    }
  }

  // ---------------------------------------------------------------------------
  // update, delete, like

  /** The author-only guard of `updateComment` and `deleteComment`: the comment, if the caller wrote it. */
  function OwnComment(comments: seq<Comment>, id: int, userId: nat): (r: Result<Comment, CommentError>)
    ensures r.Err? <==> Lookup(comments, CommentId, id).None? || Lookup(comments, CommentId, id).value.userId != userId
    ensures r.Err? ==> r.error == Unauthorized
    ensures r.Ok? ==> r.value in comments && r.value.id == id && r.value.userId == userId
  {
    match Lookup(comments, CommentId, id)
    case None => Err(Unauthorized)
    case Some(c) => if c.userId != userId then Err(Unauthorized) else Ok(c)
  }

  /** The update `updateComment` applies: the body when one is given (`isset`), nothing else. */
  function BodyOnly(body: Option<string>): (p: Patch)
    ensures p.resolved.None? && p.resolvedAt.None? && p.resolvedBy.None?
    ensures p.body == body
  {
    Patch(body, None, None, None)
  }

  /** `CommentService::updateComment`; `body` is `$data['body']` when set and not null. */
  method UpdateComment(db: Db, id: int, body: Option<string>, userId: nat, now: nat) returns (r: Result<Comment, CommentError>)
    requires db.Valid()
    modifies db`comments
    ensures db.Valid()
    ensures r.Err? <==> OwnComment(old(db.comments), id, userId).Err?
    ensures r.Err? ==> r.error == Unauthorized && db.comments == old(db.comments)
    ensures r.Ok? ==> r.value == Save(OwnComment(old(db.comments), id, userId).value, BodyOnly(body), now)
    ensures r.Ok? ==> db.comments == Replace(old(db.comments), CommentId, r.value.id, r.value)
  {
    var own := OwnComment(db.comments, id, userId);
    if own.Err? {
      return Err(Unauthorized);
    }
    var c := own.value;
    FindUnique(db.comments, CommentId, c);
    var row := Update(db, c.id, BodyOnly(body), now);
    return Ok(row);
  }

  /** `CommentService::deleteComment`: the row goes, and with it every reply below it. */
  method DeleteComment(db: Db, id: int, userId: nat) returns (r: Result<bool, CommentError>)
    requires db.Valid()
    modifies db`comments
    ensures db.Valid()
    ensures r.Err? <==> OwnComment(old(db.comments), id, userId).Err?
    ensures r.Err? ==> r.error == Unauthorized && db.comments == old(db.comments)
    ensures r.Ok? ==> r.value && db.comments == Cascade(old(db.comments), Deletion({id as nat}, {}, {}))
  {
    var own := OwnComment(db.comments, id, userId);
    if own.Err? {
      return Err(Unauthorized);
    }
    var d := Deletion({own.value.id}, {}, {});
    CascadeSound(db.comments, db.snippets, db.posts, d, db.nextId, db.snippets, db.posts);
    db.comments := Cascade(db.comments, d);
    return Ok(true);
  }

  /**
   * `CommentService::toggleLike`: the like by (user, comment) is removed if present and
   * added otherwise; the result is the new state and the comment's like count after it.
   */
  method ToggleLike(db: Db, commentId: int, userId: nat) returns (r: Result<(bool, nat), CommentError>)
    requires db.Valid()
    modifies db`likes
    ensures db.Valid()
    ensures r.Err? <==> Lookup(db.comments, CommentId, commentId).None?
    ensures r.Err? ==> r.error == CommentNotFound && db.likes == old(db.likes)
    ensures r.Ok? ==> commentId >= 0
    ensures r.Ok? ==> var like := Like(userId, CommentTarget(commentId as nat));
      && db.likes == Toggle(old(db.likes), like)
      && r.value.0 == (like in db.likes) == (like !in old(db.likes))
      && r.value.1 == LikeCount(db.likes, like.target)
  {
    var comment := Lookup(db.comments, CommentId, commentId);
    if comment.None? {
      return Err(CommentNotFound);
    }
    var like := Like(userId, CommentTarget(comment.value.id));
    var liked: bool;
    if like in db.likes {
      db.likes := db.likes - {like};
      liked := false;
    } else {
      db.likes := db.likes + {like};
      liked := true;
    }
    return Ok((liked, LikeCount(db.likes, like.target)));
  }
}
