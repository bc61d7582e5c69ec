/**
 * `SendCommentNotification::handle`: after a comment is created, notify the post's author
 * and, for a reply, the parent comment's author, never the commenter themself.
 */
module CommentNotifications {
  import opened Common
  import opened Records
  import opened Store

  function UserId(u: User): nat { u.id }

  const CommentOnPost: string := "comment_on_post"
  const ReplyToComment: string := "reply_to_comment"

  /** A notification about to be created: recipient, type and payload. */
  datatype Draft = Draft(userId: nat, kind: string, payload: Payload)

  /** The relation the handler reads that turned out to be null. */
  datatype ListenerError = NoSnippet | NoPost | NoCommenter | NoParent

  /** The notifications created, in order, and the error the handler stopped on, if any. */
  datatype Outcome = Outcome(created: seq<Draft>, error: Option<ListenerError>)

  function PostAuthorDraft(comment: Comment, snippet: Snippet, post: Post, commenter: User): Draft
  {
    Draft(post.userId, CommentOnPost,
          Payload(comment.id, None, post.id, snippet.id, commenter.name, post.title))
  }

  function ReplyDraft(comment: Comment, parent: Comment, snippet: Snippet, post: Post, commenter: User): Draft
  {
    Draft(parent.userId, ReplyToComment,
          Payload(comment.id, Some(parent.id), post.id, snippet.id, commenter.name, post.title))
  }

  /** `$comment->snippet`: null without a snippet_id or when the row is missing. */
  function SnippetOf(snippets: seq<Snippet>, comment: Comment): Option<Snippet>
  {
    if comment.snippetId.Some? then Find(snippets, SnippetId, comment.snippetId.value) else None
  }

  /** The reply step, given what the post-author step already created. */
  function ReplyStep(users: seq<User>, comments: seq<Comment>, comment: Comment, snippet: Snippet, post: Post,
                     created: seq<Draft>): (r: Outcome)
    ensures |created| <= |r.created| <= |created| + 1 && r.created[..|created|] == created
  {
    if !IsSet(comment.parentId) then Outcome(created, None)
    else
      match Find(comments, CommentId, comment.parentId.value)
      case None => Outcome(created, Some(NoParent))
      case Some(parent) =>
        if parent.userId == comment.userId then Outcome(created, None)
        else
          match Find(users, UserId, comment.userId)
          case None => Outcome(created, Some(NoCommenter))
          case Some(commenter) => Outcome(created + [ReplyDraft(comment, parent, snippet, post, commenter)], None)
  }

  /** What `handle` does to the notifications table, step by step. */
  function Handle(users: seq<User>, snippets: seq<Snippet>, posts: seq<Post>, comments: seq<Comment>,
                  comment: Comment): Outcome
  {
    match SnippetOf(snippets, comment)
    case None => Outcome([], Some(NoSnippet))
    case Some(snippet) =>
      match Find(posts, PostId, snippet.postId)
      case None => Outcome([], Some(NoPost))
      case Some(post) => AuthorSteps(users, comments, comment, snippet, post)
  }

  /** Both notification steps, once the snippet and its post are known. */
  function AuthorSteps(users: seq<User>, comments: seq<Comment>, comment: Comment, snippet: Snippet, post: Post): Outcome
  {
    if post.userId == comment.userId then ReplyStep(users, comments, comment, snippet, post, [])
    else
      match Find(users, UserId, comment.userId)
      case None => Outcome([], Some(NoCommenter))
      case Some(commenter) =>
        ReplyStep(users, comments, comment, snippet, post, [PostAuthorDraft(comment, snippet, post, commenter)])
  }

  /**
   * At most two notifications, each of one of the two types, each about this comment, and
   * none addressed to the commenter.
   */
  lemma HandleShape(users: seq<User>, snippets: seq<Snippet>, posts: seq<Post>, comments: seq<Comment>,
                    comment: Comment)
    ensures var r := Handle(users, snippets, posts, comments, comment);
      |r.created| <= 2
      && (forall d :: d in r.created ==> d.userId != comment.userId && d.payload.commentId == comment.id)
      && (forall d :: d in r.created ==> d.kind == CommentOnPost || d.kind == ReplyToComment)
  {
  }

  /**
   * When every relation the handler reads resolves, it stops on no error, notifies the
   * post's author exactly when that is not the commenter, and notifies the parent's author
   * exactly when the comment is a reply and the parent is not the commenter's own.
   */
  lemma HandleResolved(users: seq<User>, snippets: seq<Snippet>, posts: seq<Post>, comments: seq<Comment>,
                       comment: Comment, snippet: Snippet, post: Post, commenter: User)
    requires SnippetOf(snippets, comment) == Some(snippet)
    requires Find(posts, PostId, snippet.postId) == Some(post)
    requires Find(users, UserId, comment.userId) == Some(commenter)
    requires comment.parentId.Some? ==> Find(comments, CommentId, comment.parentId.value).Some?
    ensures var r := Handle(users, snippets, posts, comments, comment);
      r.error == None
      && ((exists d :: d in r.created && d.kind == CommentOnPost) <==> post.userId != comment.userId)
      && (post.userId != comment.userId ==> r.created[0] == PostAuthorDraft(comment, snippet, post, commenter))
      && ((exists d :: d in r.created && d.kind == ReplyToComment) <==>
            (IsSet(comment.parentId)
             && Find(comments, CommentId, comment.parentId.value).value.userId != comment.userId))
  {
    var r := Handle(users, snippets, posts, comments, comment);
    if IsSet(comment.parentId) {
      var parent := Find(comments, CommentId, comment.parentId.value).value;
      if parent.userId != comment.userId {
        assert r.created[|r.created| - 1] == ReplyDraft(comment, parent, snippet, post, commenter);
      }
    }
    if post.userId != comment.userId {
      assert r.created[0] == PostAuthorDraft(comment, snippet, post, commenter);
    }
  }

  /**
   * No deduplication: a reply on someone else's post, to a comment by that same author,
   * notifies that author twice, once per type.
   */
  lemma SameAuthorNotifiedTwice(users: seq<User>, snippets: seq<Snippet>, posts: seq<Post>, comments: seq<Comment>,
                                comment: Comment, snippet: Snippet, post: Post, commenter: User, parent: Comment)
    requires SnippetOf(snippets, comment) == Some(snippet)
    requires Find(posts, PostId, snippet.postId) == Some(post)
    requires Find(users, UserId, comment.userId) == Some(commenter)
    requires comment.parentId == Some(parent.id) && parent.id != 0
    requires Find(comments, CommentId, parent.id) == Some(parent)
    requires parent.userId == post.userId && post.userId != comment.userId
    ensures Handle(users, snippets, posts, comments, comment).created ==
      [PostAuthorDraft(comment, snippet, post, commenter), ReplyDraft(comment, parent, snippet, post, commenter)]
    ensures Handle(users, snippets, posts, comments, comment).created[0].userId ==
      Handle(users, snippets, posts, comments, comment).created[1].userId
  {
  }

  /** The row `Notification::create` stores for a draft. */
  function StoredRow(d: Draft, id: nat, now: nat): Notification
  {
    Notification(id, d.userId, d.kind, d.payload, false, now)
  }

  /** The stored rows: consecutive fresh ids, unread, stamped with the clock. */
  function Stored(drafts: seq<Draft>, next: nat, now: nat): (r: seq<Notification>)
    ensures |r| == |drafts|
    decreases |drafts|
  {
    if drafts == [] then [] else [StoredRow(drafts[0], next, now)] + Stored(drafts[1..], next + 1, now)
  }

  /** Each stored row carries its draft's recipient, type and payload under its own fresh id. */
  lemma {:induction false} StoredRows(drafts: seq<Draft>, next: nat, now: nat, i: nat)
    requires i < |drafts|
    ensures var r := Stored(drafts, next, now)[i];
      r.id == next + i && !r.read && r.userId == drafts[i].userId
      && r.kind == drafts[i].kind && r.payload == drafts[i].payload && r.createdAt == now
    decreases i
  {
    if i > 0 {
      StoredRows(drafts[1..], next + 1, now, i - 1);
    }
  }

  /** `Notification::create`: one unread row under the next id. */
  method Create(db: Db, d: Draft, now: nat)
    requires db.Valid()
    modifies db`notifications, db`nextId
    ensures db.Valid()
    ensures db.notifications == old(db.notifications) + Stored([d], old(db.nextId), now)
    ensures db.nextId == old(db.nextId) + 1
  {
    var n := StoredRow(d, db.nextId, now);
    assert Stored([d], db.nextId, now) == [n] + Stored([], db.nextId + 1, now);
    IdsAppend(db.notifications, NotificationId, n);
    db.notifications := db.notifications + [n];
    db.nextId := db.nextId + 1;
  }

  /** The reply half of `handle`. */
  method NotifyParent(db: Db, comment: Comment, snippet: Snippet, post: Post, ghost created: seq<Draft>, now: nat)
    returns (err: Option<ListenerError>)
    requires db.Valid()
    modifies db`notifications, db`nextId
    ensures db.Valid()
    ensures var r := ReplyStep(db.users, db.comments, comment, snippet, post, created);
      err == r.error
      && db.notifications == old(db.notifications) + Stored(r.created[|created|..], old(db.nextId), now)
  {
    var r := ReplyStep(db.users, db.comments, comment, snippet, post, created);
    err := None;
    if IsSet(comment.parentId) {
      var parent := Find(db.comments, CommentId, comment.parentId.value);
      if parent.None? {
        return Some(NoParent);
      }
      if parent.value.userId != comment.userId {
        var commenter := Find(db.users, UserId, comment.userId);
        if commenter.None? {
          return Some(NoCommenter);
        }
        var d := ReplyDraft(comment, parent.value, snippet, post, commenter.value);
        assert r.created[|created|..] == [d];
        Create(db, d, now);
        return;
      }
    }
    assert r.created[|created|..] == [];
  }

  /** Storing a first draft and then the rest under the following ids stores the whole list. */
  lemma StoredChain(before: seq<Notification>, middle: seq<Notification>, after: seq<Notification>,
                    d: Draft, drafts: seq<Draft>, next: nat, now: nat)
    requires |drafts| >= 1 && drafts[..1] == [d]
    requires middle == before + Stored([d], next, now)
    requires after == middle + Stored(drafts[1..], next + 1, now)
    ensures after == before + Stored(drafts, next, now)
  {
    var first, rest := Stored([d], next, now), Stored(drafts[1..], next + 1, now);
    assert drafts[0] == d;
    assert first == [StoredRow(d, next, now)] + Stored([], next + 1, now);
    assert Stored(drafts, next, now) == first + rest;
    assert before + first + rest == before + (first + rest);
  }

  /** The post's author first, then the reply step. */
  method NotifyPostAuthor(db: Db, comment: Comment, s: Snippet, p: Post, commenter: User, now: nat)
    returns (err: Option<ListenerError>)
    requires db.Valid()
    modifies db`notifications, db`nextId
    ensures db.Valid()
    ensures var r := ReplyStep(old(db.users), old(db.comments), comment, s, p, [PostAuthorDraft(comment, s, p, commenter)]);
      err == r.error && db.notifications == old(db.notifications) + Stored(r.created, old(db.nextId), now)
  {
    var d := PostAuthorDraft(comment, s, p, commenter);
    ghost var r := ReplyStep(db.users, db.comments, comment, s, p, [d]);
    ghost var notifications0, next0 := db.notifications, db.nextId;
    Create(db, d, now);
    ghost var notifications1 := db.notifications;
    err := NotifyParent(db, comment, s, p, [d], now);
    StoredChain(notifications0, notifications1, db.notifications, d, r.created, next0, now);
  }

  /** The two notification steps of `handle`. */
  method NotifyAuthors(db: Db, comment: Comment, s: Snippet, p: Post, now: nat) returns (err: Option<ListenerError>)
    requires db.Valid()
    modifies db`notifications, db`nextId
    ensures db.Valid()
    ensures var r := AuthorSteps(old(db.users), old(db.comments), comment, s, p);
      err == r.error && db.notifications == old(db.notifications) + Stored(r.created, old(db.nextId), now)
  {
    if p.userId != comment.userId {
      var commenter := Find(db.users, UserId, comment.userId);
      if commenter.None? {
        return Some(NoCommenter);
      }
      err := NotifyPostAuthor(db, comment, s, p, commenter.value, now);
    } else {
      err := NotifyParent(db, comment, s, p, [], now);
      assert ReplyStep(old(db.users), old(db.comments), comment, s, p, []).created[0..]
        == ReplyStep(old(db.users), old(db.comments), comment, s, p, []).created;
    }
  }

  /** `SendCommentNotification::handle`. */
  method HandleCreated(db: Db, comment: Comment, now: nat) returns (err: Option<ListenerError>)
    requires db.Valid()
    modifies db`notifications, db`nextId
    ensures db.Valid()
    ensures var r := Handle(old(db.users), old(db.snippets), old(db.posts), old(db.comments), comment);
      err == r.error && db.notifications == old(db.notifications) + Stored(r.created, old(db.nextId), now)
  {
    var snippet := SnippetOf(db.snippets, comment);
    if snippet.None? {
      return Some(NoSnippet);
    }
    var post := Find(db.posts, PostId, snippet.value.postId);
    if post.None? {
      return Some(NoPost);
    }
    err := NotifyAuthors(db, comment, snippet.value, post.value, now);
  }
}
