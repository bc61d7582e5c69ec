/**
 * The database as one in-memory object: a table per model, a fresh-id counter, and the
 * integrity the schema enforces (unique positive ids, and the foreign keys of the
 * comments table, including the cascade that removes a comment's replies, the comments
 * of a deleted snippet and the comments of a deleted post).
 */
module Store {
  import opened Common
  import opened Records

  /** Ids are positive (auto-increment starts at 1), unique, and below the next id to hand out. */
  ghost predicate TableOk<T(!new)>(rows: seq<T>, idOf: T -> nat, next: nat)
  {
    UniqueIds(rows, idOf) && forall x :: x in rows ==> 1 <= idOf(x) < next
  }

  /** The foreign keys of one comments row; a parent always predates its replies. */
  ghost predicate CommentRefsOk(c: Comment, comments: seq<Comment>, snippets: seq<Snippet>, posts: seq<Post>)
  {
    (c.snippetId.Some? ==> c.snippetId.value in Ids(snippets, SnippetId))
    && (c.postId.Some? ==> c.postId.value in Ids(posts, PostId))
    && (c.parentId.Some? ==> c.parentId.value in Ids(comments, CommentId) && c.parentId.value < c.id)
  }

  ghost predicate AllCommentRefsOk(comments: seq<Comment>, snippets: seq<Snippet>, posts: seq<Post>)
  {
    forall c :: c in comments ==> CommentRefsOk(c, comments, snippets, posts)
  }

  /** No two posts share a slug. */
  ghost predicate SlugsUnique(posts: seq<Post>)
  {
    forall p, q :: p in posts && q in posts && p.slug == q.slug ==> p == q
  }

  /** The columns of the bookmarks table's unique index (bookmarkable_type is always a post). */
  function UserPost(b: Bookmark): (nat, nat)
  {
    (b.userId, b.postId)
  }

  /** The unique index on (user_id, bookmarkable_id, bookmarkable_type). */
  ghost predicate OneBookmarkPerPost(bookmarks: seq<Bookmark>)
  {
    UniqueIds(bookmarks, UserPost)
  }

  /** The schema's integrity over the tables' contents and the id counter. */
  ghost predicate Consistent(posts: seq<Post>, snippets: seq<Snippet>, comments: seq<Comment>,
                             bookmarks: seq<Bookmark>, notifications: seq<Notification>, nextId: nat)
  {
    nextId >= 1
    && TableOk(posts, PostId, nextId)
    && TableOk(snippets, SnippetId, nextId)
    && TableOk(comments, CommentId, nextId)
    && TableOk(bookmarks, BookmarkId, nextId)
    && TableOk(notifications, NotificationId, nextId)
    && SlugsUnique(posts)
    && AllCommentRefsOk(comments, snippets, posts)
    && OneBookmarkPerPost(bookmarks)
  }

  class Db {
    var users: seq<User>
    var posts: seq<Post>
    var snippets: seq<Snippet>
    var comments: seq<Comment>
    var likes: set<Like>
    var reactions: set<Reaction>
    var follows: set<Follow>
    var bookmarks: seq<Bookmark>
    var notifications: seq<Notification>
    var nextId: nat

    ghost predicate Valid()
      reads this
    {
      Consistent(posts, snippets, comments, bookmarks, notifications, nextId)
    }

    /** An empty database with the given registered users. */
    constructor (users: seq<User>)
      ensures Valid()
      ensures this.users == users && posts == [] && snippets == [] && comments == []
      ensures likes == {} && reactions == {} && follows == {} && bookmarks == [] && notifications == []
    {
      this.users := users;
      posts, snippets, comments := [], [], [];
      likes, reactions, follows := {}, {}, {};
      bookmarks, notifications := [], [];
      nextId := 1;
    }
  }

  // ---------------------------------------------------------------------------
  // Table maintenance shared by the services

  /** Foreign keys that resolve keep resolving when the referenced tables only gain ids. */
  lemma RefsGrow(comments: seq<Comment>, snippets: seq<Snippet>, posts: seq<Post>,
                 snippets': seq<Snippet>, posts': seq<Post>)
    requires AllCommentRefsOk(comments, snippets, posts)
    requires Ids(snippets, SnippetId) <= Ids(snippets', SnippetId) && Ids(posts, PostId) <= Ids(posts', PostId)
    ensures AllCommentRefsOk(comments, snippets', posts')
  {
    forall c | c in comments ensures CommentRefsOk(c, comments, snippets', posts') {
      assert CommentRefsOk(c, comments, snippets, posts);
    }
  }

  /** Replace the row with the given id (an Eloquent `update` on one model). */
  function Replace<T>(rows: seq<T>, idOf: T -> nat, id: nat, row: T): (r: seq<T>)
    ensures |r| == |rows|
    ensures forall i :: 0 <= i < |r| ==> r[i] == if idOf(rows[i]) == id then row else rows[i]
  {
    if rows == [] then []
    else [if idOf(rows[0]) == id then row else rows[0]] + Replace(rows[1..], idOf, id, row)
  }

  /** After the replacement every row is the new one or an untouched row with another id. */
  lemma ReplaceMembers<T(!new)>(rows: seq<T>, idOf: T -> nat, id: nat, row: T)
    ensures forall x :: x in Replace(rows, idOf, id, row) ==> x == row || (x in rows && idOf(x) != id)
  {
    var r := Replace(rows, idOf, id, row);
    forall x | x in r ensures x == row || (x in rows && idOf(x) != id) {
      var i :| 0 <= i < |r| && r[i] == x;
    }
  }

  /** Replacing a row by one with the same id leaves the set of ids as it was. */
  lemma ReplaceIds<T(!new)>(rows: seq<T>, idOf: T -> nat, id: nat, row: T)
    requires idOf(row) == id && id in Ids(rows, idOf)
    ensures Ids(Replace(rows, idOf, id, row), idOf) == Ids(rows, idOf)
  {
    var r := Replace(rows, idOf, id, row);
    ReplaceMembers(rows, idOf, id, row);
    forall v | v in Ids(r, idOf) ensures v in Ids(rows, idOf) {
      var x :| x in r && idOf(x) == v;
    }
    forall v | v in Ids(rows, idOf) ensures v in Ids(r, idOf) {
      var x :| x in rows && idOf(x) == v;
      var i :| 0 <= i < |rows| && rows[i] == x;
      assert r[i] in r;
    }
  }

  /** Replacing a row by one with the same id keeps the ids unique and in range. */
  lemma ReplaceKeepsTable<T(!new)>(rows: seq<T>, idOf: T -> nat, id: nat, row: T, next: nat)
    requires TableOk(rows, idOf, next) && idOf(row) == id && id in Ids(rows, idOf)
    ensures TableOk(Replace(rows, idOf, id, row), idOf, next)
  {
    var r := Replace(rows, idOf, id, row);
    assert forall i :: 0 <= i < |r| ==> idOf(r[i]) == idOf(rows[i]);
    ReplaceMembers(rows, idOf, id, row);
    var x :| x in rows && idOf(x) == id;
  }

  /** Replacing a row by one with the same id and foreign keys keeps the schema's integrity. */
  lemma ReplaceCommentKeepsRefs(comments: seq<Comment>, snippets: seq<Snippet>, posts: seq<Post>,
                                id: nat, old_row: Comment, row: Comment, next: nat)
    requires TableOk(comments, CommentId, next) && AllCommentRefsOk(comments, snippets, posts)
    requires old_row in comments && old_row.id == id && row.id == id
    requires row.snippetId == old_row.snippetId && row.postId == old_row.postId && row.parentId == old_row.parentId
    ensures TableOk(Replace(comments, CommentId, id, row), CommentId, next)
    ensures AllCommentRefsOk(Replace(comments, CommentId, id, row), snippets, posts)
  {
    assert id in Ids(comments, CommentId);
    ReplaceKeepsTable(comments, CommentId, id, row, next);
    ReplaceMembers(comments, CommentId, id, row);
    ReplaceIds(comments, CommentId, id, row);
    assert CommentRefsOk(old_row, comments, snippets, posts);
  }

  // ---------------------------------------------------------------------------
  // ON DELETE CASCADE on comments

  /** `DELETE FROM posts WHERE id IN ids`. */
  function RemovePosts(posts: seq<Post>, ids: set<nat>): (r: seq<Post>)
    ensures forall p :: p in r <==> p in posts && p.id !in ids
    ensures UniqueIds(posts, PostId) ==> UniqueIds(r, PostId)
  {
    var keep := (p: Post) => p.id !in ids;
    FilterKeepsUniqueIds(posts, PostId, keep);
    Filter(posts, keep)
  }

  /** `DELETE FROM snippets WHERE id IN ids`. */
  function RemoveSnippets(snippets: seq<Snippet>, ids: set<nat>): (r: seq<Snippet>)
    ensures forall s :: s in r <==> s in snippets && s.id !in ids
    ensures UniqueIds(snippets, SnippetId) ==> UniqueIds(r, SnippetId)
  {
    var keep := (s: Snippet) => s.id !in ids;
    FilterKeepsUniqueIds(snippets, SnippetId, keep);
    Filter(snippets, keep)
  }

  /** What is being deleted: comments, snippets and posts, by id. */
  datatype Deletion = Deletion(commentIds: set<nat>, snippetIds: set<nat>, postIds: set<nat>)

  /** A row whose own key or one of whose foreign keys names a deleted row. */
  predicate DirectlyDeleted(c: Comment, d: Deletion)
  {
    c.id in d.commentIds
    || (c.snippetId.Some? && c.snippetId.value in d.snippetIds)
    || (c.postId.Some? && c.postId.value in d.postIds)
  }

  /**
   * Whether the comment with this id goes: it is deleted directly, or its parent goes
   * (parent_id cascades).
   */
  function Doomed(comments: seq<Comment>, d: Deletion, id: nat): bool
    decreases id
  {
    match Find(comments, CommentId, id)
    case None => false
    case Some(c) =>
      DirectlyDeleted(c, d)
      || (c.parentId.Some? && c.parentId.value < id && Doomed(comments, d, c.parentId.value))
  }

  /** The comments table after the cascade. */
  function Cascade(comments: seq<Comment>, d: Deletion): (r: seq<Comment>)
    ensures forall c :: c in r <==> c in comments && !Doomed(comments, d, c.id)
    ensures UniqueIds(comments, CommentId) ==> UniqueIds(r, CommentId)
  {
    var keep := (c: Comment) => !Doomed(comments, d, c.id);
    FilterKeepsUniqueIds(comments, CommentId, keep);
    Filter(comments, keep)
  }

  /**
   * The cascade removes every directly deleted row and every reply of a removed row,
   * keeps every other row, and leaves a table whose foreign keys all point at rows that
   * still exist.
   */
  lemma {:induction false} CascadeSound(comments: seq<Comment>, snippets: seq<Snippet>, posts: seq<Post>,
                                        d: Deletion, next: nat, snippets': seq<Snippet>, posts': seq<Post>)
    requires TableOk(comments, CommentId, next) && AllCommentRefsOk(comments, snippets, posts)
    requires forall s :: s in snippets && s.id !in d.snippetIds ==> s.id in Ids(snippets', SnippetId)
    requires forall p :: p in posts && p.id !in d.postIds ==> p.id in Ids(posts', PostId)
    ensures forall c :: c in comments && DirectlyDeleted(c, d) ==> c !in Cascade(comments, d)
    ensures forall c, p :: c in comments && p in comments && c.parentId == Some(p.id) && p !in Cascade(comments, d)
              ==> c !in Cascade(comments, d)
    ensures TableOk(Cascade(comments, d), CommentId, next)
    ensures AllCommentRefsOk(Cascade(comments, d), snippets', posts')
  {
    var r := Cascade(comments, d);
    forall c | c in comments ensures Find(comments, CommentId, c.id) == Some(c) {
      FindUnique(comments, CommentId, c);
    }
    forall c | c in r ensures CommentRefsOk(c, r, snippets', posts') {
      assert CommentRefsOk(c, comments, snippets, posts);
      if c.snippetId.Some? {
        var s :| s in snippets && s.id == c.snippetId.value;
      }
      if c.postId.Some? {
        var p :| p in posts && p.id == c.postId.value;
      }
      if c.parentId.Some? {
        var p :| p in comments && p.id == c.parentId.value;
        assert p in r;
      }
    }
  }
}
