/**
 * The rows of the blog's tables, lookups by id, and the orderings the repositories
 * and relations promise (snippets by block_index, a snippet's comments by start_line,
 * replies by created_at).
 */
module Records {
  import opened Common
  import opened Sorting

  /** One element of a post body: `{type, content, language?}`. */
  datatype Block = Block(blockType: string, content: string, language: Option<string>)

  /** The post's free-form `meta` column, carried along without interpretation. */
  type Meta = seq<(string, string)>

  datatype Post = Post(
    id: nat, userId: nat, title: string, slug: string, body: seq<Block>,
    visibility: string, meta: Option<Meta>)

  datatype Snippet = Snippet(id: nat, postId: nat, language: string, codeText: string, blockIndex: nat)

  /** A comments row; inline comments carry a snippet and a line range. */
  datatype Comment = Comment(
    id: nat, userId: nat, postId: Option<nat>, snippetId: Option<nat>, parentId: Option<nat>,
    isInline: bool, startLine: Option<int>, endLine: Option<int>, body: string,
    createdAt: nat, editedAt: Option<nat>,
    resolved: bool, resolvedAt: Option<nat>, resolvedBy: Option<nat>)

  datatype User = User(id: nat, name: string, avatarUrl: Option<string>)

  /** The polymorphic target of a like or reaction (`*_type`, `*_id`). */
  datatype Target = PostTarget(postId: nat) | CommentTarget(commentId: nat)

  datatype Like = Like(userId: nat, target: Target)

  datatype Reaction = Reaction(userId: nat, target: Target, kind: string)

  datatype Follow = Follow(followerId: nat, followingId: nat)

  datatype Bookmark = Bookmark(id: nat, userId: nat, postId: nat, folderName: Option<string>)

  /** The notification payload; `parentCommentId` is present only on replies. */
  datatype Payload = Payload(
    commentId: nat, parentCommentId: Option<nat>, postId: nat, snippetId: nat,
    commenterName: string, postTitle: string)

  datatype Notification = Notification(
    id: nat, userId: nat, kind: string, payload: Payload, read: bool, createdAt: nat)

  function PostId(p: Post): nat { p.id }
  function SnippetId(s: Snippet): nat { s.id }
  function CommentId(c: Comment): nat { c.id }
  function NotificationId(n: Notification): nat { n.id }
  function BookmarkId(b: Bookmark): nat { b.id }

  // ---------------------------------------------------------------------------
  // Lookups

  /** `Model::find($id)`: the first row with that id, if any. */
  function Find<T(==,!new)>(rows: seq<T>, idOf: T -> nat, id: nat): (r: Option<T>)
    ensures r.Some? ==> r.value in rows && idOf(r.value) == id
    ensures r.None? ==> forall x :: x in rows ==> idOf(x) != id
  {
    if rows == [] then None
    else if idOf(rows[0]) == id then Some(rows[0])
    else Find(rows[1..], idOf, id)
  }

  /** `find((int) $id)`: an integer key; a negative one names no row. */
  function Lookup<T(==,!new)>(rows: seq<T>, idOf: T -> nat, id: int): (r: Option<T>)
    ensures r.Some? ==> r.value in rows && idOf(r.value) == id
    ensures r.None? ==> forall x :: x in rows ==> idOf(x) != id
  {
    if id < 0 then None else Find(rows, idOf, id)
  }

  /**
   * No two positions of the table hold the same key (the primary key, or the columns of a
   * unique index), so no row is stored twice.
   */
  ghost predicate UniqueIds<T, K>(rows: seq<T>, idOf: T -> K)
  {
    forall i, j :: 0 <= i < j < |rows| ==> idOf(rows[i]) != idOf(rows[j])
  }

  /** With unique ids, two rows with the same id are the same row, and every row is stored once. */
  lemma {:induction false} SameIdSameRow<T(!new), K>(rows: seq<T>, idOf: T -> K)
    requires UniqueIds(rows, idOf)
    ensures forall x, y :: x in rows && y in rows && idOf(x) == idOf(y) ==> x == y
    ensures forall x :: x in rows ==> multiset(rows)[x] == 1
  {
    forall x, y | x in rows && y in rows && idOf(x) == idOf(y) ensures x == y {
      var i :| 0 <= i < |rows| && rows[i] == x;
      var j :| 0 <= j < |rows| && rows[j] == y;
      assert !(i < j) && !(j < i);
    }
    if rows != [] {
      var tail := rows[1..];
      assert UniqueIds(tail, idOf) by {
        forall i, j | 0 <= i < j < |tail| ensures idOf(tail[i]) != idOf(tail[j]) {
          assert tail[i] == rows[i + 1] && tail[j] == rows[j + 1];
        }
      }
      SameIdSameRow(tail, idOf);
      assert rows[0] !in tail by {
        forall k | 0 <= k < |tail| ensures tail[k] != rows[0] {
          assert tail[k] == rows[k + 1];
        }
      }
      assert rows == [rows[0]] + tail;
    }
  }

  /** Two tables with unique ids and no id in common give a table with unique ids. */
  lemma UniqueIdsConcat<T(!new), K>(a: seq<T>, b: seq<T>, idOf: T -> K)
    requires UniqueIds(a, idOf) && UniqueIds(b, idOf)
    requires forall x, y :: x in a && y in b ==> idOf(x) != idOf(y)
    ensures UniqueIds(a + b, idOf)
  {
    var ab := a + b;
    forall i, j | 0 <= i < j < |ab| ensures idOf(ab[i]) != idOf(ab[j]) {
      if j < |a| {
        assert ab[i] == a[i] && ab[j] == a[j];
      } else if i >= |a| {
        assert ab[i] == b[i - |a|] && ab[j] == b[j - |a|];
      } else {
        assert ab[i] in a && ab[j] == b[j - |a|] && ab[j] in b;
      }
    }
  }

  /** Filtering a table with one more row: the filtered table, then the row if it passes. */
  lemma {:induction false} FilterAppend<T(!new)>(rows: seq<T>, x: T, p: T -> bool)
    ensures Filter(rows + [x], p) == Filter(rows, p) + (if p(x) then [x] else [])
  {
    var last := if p(x) then [x] else [];
    if rows == [] {
      assert [] + [x] == [x] && [x][1..] == [];
      assert Filter([x], p) == last + Filter([], p);
    } else {
      var head := if p(rows[0]) then [rows[0]] else [];
      var r := rows + [x];
      assert r[0] == rows[0] && r[1..] == rows[1..] + [x];
      calc {
        Filter(r, p);
        head + Filter(r[1..], p);
        head + Filter(rows[1..] + [x], p);
        { FilterAppend(rows[1..], x, p); }
        head + (Filter(rows[1..], p) + last);
        (head + Filter(rows[1..], p)) + last;
        Filter(rows, p) + last;
      }
    }
  }

  /** A table whose every row passes is its own filter. */
  lemma {:induction false} FilterAll<T(!new)>(rows: seq<T>, p: T -> bool)
    requires forall x :: x in rows ==> p(x)
    ensures Filter(rows, p) == rows
  {
    if rows != [] {
      assert rows[0] in rows;
      FilterAll(rows[1..], p);
      assert rows == [rows[0]] + rows[1..];
    }
  }

  /** Keeping some of the rows keeps the ids unique. */
  lemma {:induction false} FilterKeepsUniqueIds<T(!new), K>(rows: seq<T>, idOf: T -> K, p: T -> bool)
    ensures UniqueIds(rows, idOf) ==> UniqueIds(Filter(rows, p), idOf)
  {
    if rows != [] && UniqueIds(rows, idOf) {
      var tail := rows[1..];
      assert UniqueIds(tail, idOf) by {
        forall i, j | 0 <= i < j < |tail| ensures idOf(tail[i]) != idOf(tail[j]) {
          assert tail[i] == rows[i + 1] && tail[j] == rows[j + 1];
        }
      }
      FilterKeepsUniqueIds(tail, idOf, p);
      var rest := Filter(tail, p);
      if p(rows[0]) {
        forall y | y in rest ensures idOf(rows[0]) != idOf(y) {
          var k :| 0 <= k < |tail| && tail[k] == y;
          assert rows[k + 1] == y;
        }
        UniqueIdsConcat([rows[0]], rest, idOf);
      }
    }
  }

  /** The ids present in a table. */
  function Ids<T(==,!new)>(rows: seq<T>, idOf: T -> nat): set<nat>
  {
    set x | x in rows :: idOf(x)
  }

  /** Appending a row adds exactly its id. */
  lemma IdsAppend<T(!new)>(rows: seq<T>, idOf: T -> nat, x: T)
    ensures Ids(rows + [x], idOf) == Ids(rows, idOf) + {idOf(x)}
  {
    forall v | v in Ids(rows, idOf) ensures v in Ids(rows + [x], idOf) {
      var y :| y in rows && idOf(y) == v;
      assert y in rows + [x];
    }
    assert x in rows + [x];
  }

  /** With unique ids, looking up a row's id finds that very row. */
  lemma FindUnique<T(!new)>(rows: seq<T>, idOf: T -> nat, x: T)
    requires UniqueIds(rows, idOf) && x in rows
    ensures Find(rows, idOf, idOf(x)) == Some(x)
  {
    SameIdSameRow(rows, idOf);
  }

  /**
   * `Collection::filter`, or a `where` clause: the rows satisfying `p`, in table order, each
   * as many times as the table holds it.
   */
  function Filter<T(==,!new)>(rows: seq<T>, p: T -> bool): (r: seq<T>)
    ensures |r| <= |rows|
    ensures forall x :: x in r <==> x in rows && p(x)
  {
    if rows == [] then []
    else (if p(rows[0]) then [rows[0]] else []) + Filter(rows[1..], p)
  }

  /** A row passing the filter is kept as many times as the table holds it; any other row not at all. */
  lemma {:induction false} FilterCount<T(!new)>(rows: seq<T>, p: T -> bool)
    ensures forall x :: multiset(Filter(rows, p))[x] == if p(x) then multiset(rows)[x] else 0
  {
    if rows != [] {
      FilterCount(rows[1..], p);
      assert rows == [rows[0]] + rows[1..];
    }
  }

  // ---------------------------------------------------------------------------
  // Repository and relation orderings

  function BlockIndexKey(s: Snippet): int { s.blockIndex }

  /** MySQL sorts NULL first in ascending order; stored line numbers are at least 1. */
  function StartLineKey(c: Comment): int
  {
    if c.startLine.Some? then c.startLine.value else 0
  }

  function CreatedAtKey(c: Comment): int { c.createdAt }

  /** `SnippetRepository::findByPost`, `Post::snippets()`: a post's snippets ordered by block_index. */
  function SnippetsOfPost(snippets: seq<Snippet>, postId: nat): (r: seq<Snippet>)
    ensures forall s :: s in r <==> s in snippets && s.postId == postId
    ensures forall s :: multiset(r)[s] == if s.postId == postId then multiset(snippets)[s] else 0
  {
    var keep := (s: Snippet) => s.postId == postId;
    var mine := Filter(snippets, keep);
    FilterCount(snippets, keep);
    assert forall s :: s in mine <==> s in snippets && s.postId == postId;
    var r := SortBy(mine, BlockIndexKey);
    assert forall s :: s in r <==> s in multiset(mine);
    r
  }

  /** `CommentRepository::getAllBySnippet`, `Snippet::allComments()`: ordered by start_line. */
  function CommentsOfSnippet(comments: seq<Comment>, snippetId: nat): (r: seq<Comment>)
    ensures forall c :: c in r <==> c in comments && c.snippetId == Some(snippetId)
    ensures forall c :: multiset(r)[c] == if c.snippetId == Some(snippetId) then multiset(comments)[c] else 0
  {
    var keep := (c: Comment) => c.snippetId == Some(snippetId);
    var mine := Filter(comments, keep);
    FilterCount(comments, keep);
    assert forall c :: c in mine <==> c in comments && c.snippetId == Some(snippetId);
    var r := SortBy(mine, StartLineKey);
    assert forall c :: c in r <==> c in multiset(mine);
    r
  }

  /** `Comment::replies()`: the comments whose parent_id is `id`, ordered by created_at. */
  function Replies(comments: seq<Comment>, id: nat): (r: seq<Comment>)
    ensures forall c :: c in r <==> c in comments && c.parentId == Some(id)
    ensures forall c :: multiset(r)[c] == if c.parentId == Some(id) then multiset(comments)[c] else 0
  {
    var keep := (c: Comment) => c.parentId == Some(id);
    var mine := Filter(comments, keep);
    FilterCount(comments, keep);
    assert forall c :: c in mine <==> c in comments && c.parentId == Some(id);
    var r := SortBy(mine, CreatedAtKey);
    assert forall c :: c in r <==> c in multiset(mine);
    r
  }

  /** The ordering promised by `Comment::replies()`. */
  lemma RepliesOrdered(comments: seq<Comment>, id: nat)
    ensures SortedBy(Replies(comments, id), CreatedAtKey)
  {
    SortBySorted(Filter(comments, (c: Comment) => c.parentId == Some(id)), CreatedAtKey);
  }

  /** The ordering promised by `SnippetRepository::findByPost`. */
  lemma SnippetsOfPostOrdered(snippets: seq<Snippet>, postId: nat)
    ensures SortedBy(SnippetsOfPost(snippets, postId), BlockIndexKey)
  {
    SortBySorted(Filter(snippets, (s: Snippet) => s.postId == postId), BlockIndexKey);
  }

  /** The number of likes on one target (`$model->likes()->count()`). */
  function LikeCount(likes: set<Like>, target: Target): nat
  {
    |set l | l in likes && l.target == target|
  }

  /**
   * Toggling one user's like on a target moves that target's like count by exactly one,
   * up when the like was absent and down when it was present.
   */
  lemma ToggleLikeCount(likes: set<Like>, like: Like)
    ensures LikeCount(Toggle(likes, like), like.target) ==
      if like in likes then LikeCount(likes, like.target) - 1 else LikeCount(likes, like.target) + 1
  {
    var t := like.target;
    var before := set l | l in likes && l.target == t;
    var after := set l | l in Toggle(likes, like) && l.target == t;
    if like in likes {
      assert after == before - {like};
    } else {
      assert after == before + {like};
    }
  }

  /** Toggling a like on one target leaves every other target's count alone. */
  lemma ToggleLikeOtherTarget(likes: set<Like>, like: Like, other: Target)
    requires other != like.target
    ensures LikeCount(Toggle(likes, like), other) == LikeCount(likes, other)
  {
    assert (set l | l in Toggle(likes, like) && l.target == other) ==
      (set l | l in likes && l.target == other);
  }
}
