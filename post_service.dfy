/**
 * `PostService`: the slug with the smallest free numeric suffix, one snippet per code
 * block of the body (indexed by its position in the whole body), the owner-only update and
 * delete, and the post like toggle. `Str::slug` is a parameter of the operations that use it.
 */
module PostService {
  import opened Common
  import opened Records
  import opened Store

  // ---------------------------------------------------------------------------
  // Slugs

  /** `$originalSlug . '-' . $count` for a count k >= 1, and the base slug itself for k = 0. */
  function Suffixed(base: string, k: nat): string
  {
    if k == 0 then base else base + "-" + NatToString(k)
  }

  /** Different counts give different slugs. */
  lemma SuffixedInjective(base: string, j: nat, k: nat)
    requires Suffixed(base, j) == Suffixed(base, k)
    ensures j == k
  {
    if j != 0 && k != 0 {
      var a, b := Suffixed(base, j), Suffixed(base, k);
      assert a[|base| + 1..] == NatToString(j);
      assert b[|base| + 1..] == NatToString(k);
      NatToStringInjective(j, k);
    }
  }

  /** `Post::where('slug', $slug)->exists()`, leaving out the post being updated, if any. */
  predicate SlugTaken(posts: seq<Post>, slug: string, except: Option<nat>)
  {
    exists p :: p in posts && p.slug == slug && (except.None? || p.id != except.value)
  }

  /** `slug` is `base` with the smallest count whose slug is free (no count for a free base). */
  ghost predicate SmallestFreeSlug(posts: seq<Post>, base: string, except: Option<nat>, slug: string)
  {
    exists k: nat :: slug == Suffixed(base, k) && !SlugTaken(posts, slug, except)
      && forall j: nat :: j < k ==> SlugTaken(posts, Suffixed(base, j), except)
  }

  /** The rule determines the slug: two slugs chosen by it are the same. */
  lemma SmallestFreeSlugUnique(posts: seq<Post>, base: string, except: Option<nat>, s1: string, s2: string)
    requires SmallestFreeSlug(posts, base, except, s1) && SmallestFreeSlug(posts, base, except, s2)
    ensures s1 == s2
  {
    var k1: nat :| s1 == Suffixed(base, k1) && !SlugTaken(posts, s1, except)
      && forall j: nat :: j < k1 ==> SlugTaken(posts, Suffixed(base, j), except);
    var k2: nat :| s2 == Suffixed(base, k2) && !SlugTaken(posts, s2, except)
      && forall j: nat :: j < k2 ==> SlugTaken(posts, Suffixed(base, j), except);
  }

  function Slugs(posts: seq<Post>): set<string>
  {
    set p | p in posts :: p.slug
  }

  lemma {:induction false} SlugsSize(posts: seq<Post>)
    ensures |Slugs(posts)| <= |posts|
  {
    if posts != [] {
      SlugsSize(posts[1..]);
      assert Slugs(posts) == Slugs(posts[1..]) + {posts[0].slug} by {
        forall s | s in Slugs(posts) ensures s in Slugs(posts[1..]) + {posts[0].slug} {
          var p :| p in posts && p.slug == s;
          if p != posts[0] {
            assert p in posts[1..];
          }
        }
      }
    }
  }

  function SuffixSlugs(base: string, k: nat): set<string>
  {
    set j: nat | j < k :: Suffixed(base, j)
  }

  lemma {:induction false} SuffixSlugsSize(base: string, k: nat)
    ensures |SuffixSlugs(base, k)| == k
  {
    if k > 0 {
      SuffixSlugsSize(base, k - 1);
      assert SuffixSlugs(base, k) == SuffixSlugs(base, k - 1) + {Suffixed(base, k - 1)};
      if Suffixed(base, k - 1) in SuffixSlugs(base, k - 1) {
        var j: nat :| j < k - 1 && Suffixed(base, j) == Suffixed(base, k - 1);
        SuffixedInjective(base, j, k - 1);
      }
    }
  }

  lemma {:induction false} SubsetSize<T>(a: set<T>, b: set<T>)
    requires a <= b
    ensures |a| <= |b|
  {
    if a != {} {
      var x :| x in a;
      SubsetSize(a - {x}, b - {x});
    }
  }

  /** Only as many counts as there are posts can be taken, so the search stops. */
  lemma TakenSuffixesBound(posts: seq<Post>, base: string, except: Option<nat>, k: nat)
    requires forall j: nat :: j < k ==> SlugTaken(posts, Suffixed(base, j), except)
    ensures k <= |posts|
  {
    SuffixSlugsSize(base, k);
    SlugsSize(posts);
    forall s | s in SuffixSlugs(base, k) ensures s in Slugs(posts) {
      var j: nat :| j < k && s == Suffixed(base, j);
      assert SlugTaken(posts, Suffixed(base, j), except);
    }
    SubsetSize(SuffixSlugs(base, k), Slugs(posts));
  }

  /** The collision loop of `createPost` and `updatePost`. */
  method UniqueSlug(posts: seq<Post>, base: string, except: Option<nat>) returns (slug: string)
    ensures SmallestFreeSlug(posts, base, except, slug)
    ensures !SlugTaken(posts, slug, except)
    ensures !SlugTaken(posts, base, except) ==> slug == base
  {
    slug := base;
    var count: nat := 1;
    while SlugTaken(posts, slug, except)
      invariant count >= 1 && slug == Suffixed(base, count - 1)
      invariant forall j: nat :: j < count - 1 ==> SlugTaken(posts, Suffixed(base, j), except)
      invariant count - 1 <= |posts|
      decreases |posts| - (count - 1)
    {
      TakenSuffixesBound(posts, base, except, count);
      slug := base + "-" + NatToString(count);
      count := count + 1;
    }
  }

  // ---------------------------------------------------------------------------
  // Body blocks to snippets

  /** One element of the `$snippets` array, before `createMany` gives it an id. */
  datatype SnippetRow = SnippetRow(language: string, codeText: string, blockIndex: nat)

  predicate IsCode(b: Block)
  {
    b.blockType == "code"
  }

  /** The row for the code block at position `index`; the language defaults to `text`. */
  function RowOf(b: Block, index: nat): SnippetRow
  {
    SnippetRow(if b.language.Some? then b.language.value else "text", b.content, index)
  }

  /** The rows built from a body, one per code block, in body order. */
  function SnippetRows(body: seq<Block>): seq<SnippetRow>
  {
    if body == [] then []
    else
      var n := |body| - 1;
      var init := SnippetRows(body[..n]);
      if IsCode(body[n]) then init + [RowOf(body[n], n)] else init
  }

  /**
   * Exactly one row per code block, in body order, each carrying its block's position in
   * the whole body (text blocks included).
   */
  lemma {:induction false} SnippetRowsSpec(body: seq<Block>)
    ensures var rows := SnippetRows(body);
      (forall i :: 0 <= i < |rows| ==>
        rows[i].blockIndex < |body| && IsCode(body[rows[i].blockIndex])
        && rows[i] == RowOf(body[rows[i].blockIndex], rows[i].blockIndex))
      && (forall i, j :: 0 <= i < j < |rows| ==> rows[i].blockIndex < rows[j].blockIndex)
      && (forall k :: 0 <= k < |body| && IsCode(body[k]) ==> exists i :: 0 <= i < |rows| && rows[i].blockIndex == k)
    decreases |body|
  {
    if body != [] {
      var n := |body| - 1;
      SnippetRowsSpec(body[..n]);
      var init := SnippetRows(body[..n]);
      assert forall k :: 0 <= k < n ==> body[..n][k] == body[k];
      var rows := SnippetRows(body);
      assert forall i :: 0 <= i < |init| ==> rows[i] == init[i];
      assert IsCode(body[n]) ==> rows[|init|].blockIndex == n;
      forall k | 0 <= k < |body| && IsCode(body[k])
        ensures exists i :: 0 <= i < |rows| && rows[i].blockIndex == k
      {
        if k == n {
          assert rows[|init|].blockIndex == k;
        } else {
          assert body[..n][k] == body[k];
          var i :| 0 <= i < |init| && init[i].blockIndex == k;
          assert rows[i].blockIndex == k;
        }
      }
    }
  }

  /** The `foreach ($body as $block)` loop with its running `$blockIndex`. */
  method ExtractSnippets(body: seq<Block>) returns (rows: seq<SnippetRow>)
    ensures rows == SnippetRows(body)
  {
    rows := [];
    var blockIndex := 0;
    while blockIndex < |body|
      invariant 0 <= blockIndex <= |body|
      invariant rows == SnippetRows(body[..blockIndex])
    {
      var block := body[blockIndex];
      if block.blockType == "code" {
        rows := rows + [RowOf(block, blockIndex)];
      }
      assert body[..blockIndex + 1][..blockIndex] == body[..blockIndex];
      blockIndex := blockIndex + 1;
    }
    assert body[..blockIndex] == body;
  }

  /** `createMany`: the rows stored under the post with consecutive fresh ids. */
  function Materialize(rows: seq<SnippetRow>, postId: nat, firstId: nat): (r: seq<Snippet>)
    ensures |r| == |rows|
    decreases |rows|
  {
    if rows == [] then []
    else
      [Snippet(firstId, postId, rows[0].language, rows[0].codeText, rows[0].blockIndex)]
      + Materialize(rows[1..], postId, firstId + 1)
  }

  /** The `i`-th stored snippet is the `i`-th row, under the post, with id `firstId + i`. */
  lemma {:induction false} MaterializeRow(rows: seq<SnippetRow>, postId: nat, firstId: nat, i: nat)
    requires i < |rows|
    ensures Materialize(rows, postId, firstId)[i]
      == Snippet(firstId + i, postId, rows[i].language, rows[i].codeText, rows[i].blockIndex)
    decreases i
  {
    if i > 0 {
      MaterializeRow(rows[1..], postId, firstId + 1, i - 1);
    }
  }

  /** Appending freshly numbered snippets keeps the table's ids unique and keeps the old ids. */
  lemma AppendFreshKeepsTable(snippets: seq<Snippet>, rows: seq<SnippetRow>, postId: nat, next: nat)
    requires TableOk(snippets, SnippetId, next) && next >= 1
    ensures TableOk(snippets + Materialize(rows, postId, next), SnippetId, next + |rows|)
    ensures Ids(snippets, SnippetId) <= Ids(snippets + Materialize(rows, postId, next), SnippetId)
  {
    var added := Materialize(rows, postId, next);
    var all := snippets + added;
    assert forall x :: x in added ==> next <= x.id < next + |rows| by {
      forall x | x in added ensures next <= x.id < next + |rows| {
        var i :| 0 <= i < |added| && added[i] == x;
        MaterializeRow(rows, postId, next, i);
      }
    }
    assert UniqueIds(added, SnippetId) by {
      forall i, j | 0 <= i < j < |added| ensures added[i].id != added[j].id {
        MaterializeRow(rows, postId, next, i);
        MaterializeRow(rows, postId, next, j);
      }
    }
    UniqueIdsConcat(snippets, added, SnippetId);
    forall v | v in Ids(snippets, SnippetId) ensures v in Ids(all, SnippetId) {
      var x :| x in snippets && x.id == v;
      assert x in all;
    }
  }

  // ---------------------------------------------------------------------------
  // createPost

  /** The validated input of `createPost` that the model uses (tags are left out). */
  datatype PostData = PostData(title: string, body: seq<Block>, visibility: Option<string>, meta: Option<Meta>)

  /** `$data['visibility'] ?? 'public'`. */
  function VisibilityOrPublic(visibility: Option<string>): (v: string)
    ensures visibility.Some? ==> v == visibility.value
    ensures visibility.None? ==> v == "public"
  {
    if visibility.Some? then visibility.value else "public"
  }

  /** A new post with a free slug and a fresh id keeps the posts table valid. */
  lemma AppendPostKeepsPosts(posts: seq<Post>, post: Post, next: nat)
    requires TableOk(posts, PostId, next) && SlugsUnique(posts) && post.id == next && next >= 1
    requires !SlugTaken(posts, post.slug, None)
    ensures TableOk(posts + [post], PostId, next + 1) && SlugsUnique(posts + [post])
    ensures Ids(posts, PostId) <= Ids(posts + [post], PostId)
  {
    IdsAppend(posts, PostId, post);
  }

  /** `PostRepository::create` of a row with the next id and a slug no post has. */
  method InsertPost(db: Db, post: Post)
    requires db.Valid() && post.id == db.nextId && !SlugTaken(db.posts, post.slug, None)
    modifies db`posts, db`nextId
    ensures db.Valid()
    ensures db.posts == old(db.posts) + [post] && db.nextId == old(db.nextId) + 1
  {
    AppendPostKeepsPosts(db.posts, post, db.nextId);
    RefsGrow(db.comments, db.snippets, db.posts, db.snippets, db.posts + [post]);
    db.posts := db.posts + [post];
    db.nextId := db.nextId + 1;
  }

  /** `createMany` of the rows built from a body, under the given post. */
  method AddSnippets(db: Db, postId: nat, body: seq<Block>)
    requires db.Valid()
    modifies db`snippets, db`nextId
    ensures db.Valid()
    ensures db.snippets == old(db.snippets) + Materialize(SnippetRows(body), postId, old(db.nextId))
    ensures db.nextId == old(db.nextId) + |SnippetRows(body)|
  {
    var rows := ExtractSnippets(body);
    AppendFreshKeepsTable(db.snippets, rows, postId, db.nextId);
    var snippets' := db.snippets + Materialize(rows, postId, db.nextId);
    RefsGrow(db.comments, db.snippets, db.posts, snippets', db.posts);
    db.snippets := snippets';
    db.nextId := db.nextId + |rows|;
  }

  /** `PostService::createPost`: the post, then one snippet per code block. */
  method CreatePost(db: Db, data: PostData, userId: nat, slugify: string -> string) returns (post: Post)
    requires db.Valid()
    modifies db`posts, db`snippets, db`nextId
    ensures db.Valid()
    ensures post == Post(old(db.nextId), userId, data.title, post.slug, data.body, VisibilityOrPublic(data.visibility), data.meta)
    ensures SmallestFreeSlug(old(db.posts), slugify(data.title), None, post.slug)
    ensures db.posts == old(db.posts) + [post]
    ensures db.snippets == old(db.snippets) + Materialize(SnippetRows(data.body), post.id, old(db.nextId) + 1)
    ensures db.nextId == old(db.nextId) + 1 + |SnippetRows(data.body)|
  {
    var visibility := VisibilityOrPublic(data.visibility);
    var slug := UniqueSlug(db.posts, slugify(data.title), None);
    post := Post(db.nextId, userId, data.title, slug, data.body, visibility, data.meta);
    InsertPost(db, post);
    AddSnippets(db, post.id, data.body);
  }

  /**
   * The tag step of `createPost` and `updatePost` as written: it ends in
   * `$post->tags()->sync(...)`, but `Post` declares no `tags()` relation, so the step throws
   * whenever it runs. `createPost` runs it for a non-empty list, `updatePost` whenever
   * `tags` is supplied at all (`isset`), an empty list included.
   */
  function TagStepAsWritten(tags: Option<seq<string>>, isUpdate: bool): (r: Option<PostError>)
    ensures r.Some? <==> tags.Some? && (isUpdate || tags.value != [])
    ensures r.Some? ==> r.value == UndefinedRelation("tags")
  {
    if tags.Some? && (isUpdate || tags.value != []) then Some(UndefinedRelation("tags")) else None
  }

  /**
   * `PostService::createPost` as written, given the validated tag list: with tags, the
   * exception of the tag step rolls back the post and the snippets inserted before it, so
   * nothing is stored; without tags it is `CreatePost`.
   */
  method CreatePostAsWritten(db: Db, data: PostData, tags: seq<string>, userId: nat, slugify: string -> string)
    returns (r: Result<Post, PostError>)
    requires db.Valid()
    modifies db`posts, db`snippets, db`nextId
    ensures db.Valid()
    ensures r.Err? <==> tags != []
    ensures r.Err? ==> r.error == UndefinedRelation("tags")
    ensures r.Err? ==> db.posts == old(db.posts) && db.snippets == old(db.snippets) && db.nextId == old(db.nextId)
    ensures r.Ok? ==> db.posts == old(db.posts) + [r.value] && r.value.id == old(db.nextId)
    ensures r.Ok? ==>
      db.snippets == old(db.snippets) + Materialize(SnippetRows(data.body), r.value.id, old(db.nextId) + 1)
  {
    var thrown := TagStepAsWritten(Some(tags), false);
    if thrown.Some? {
      return Err(thrown.value);
    }
    var post := CreatePost(db, data, userId, slugify);
    return Ok(post);
  }

  // ---------------------------------------------------------------------------
  // updatePost, deletePost

  /** The `isset` fields of an update (tags are left out). */
  datatype PostPatch = PostPatch(title: Option<string>, body: Option<seq<Block>>, visibility: Option<string>,
                                 meta: Option<Meta>)

  /**
   * The exceptions the service throws; `UndefinedRelation` is the `BadMethodCallException`
   * Eloquent raises for a relation method the model does not declare.
   */
  datatype PostError = Unauthorized | PostNotFound | UndefinedRelation(relation: string)

  /** The owner-only guard of `updatePost` and `deletePost`: the post, if the caller owns it. */
  function OwnPost(posts: seq<Post>, id: int, userId: nat): (r: Result<Post, PostError>)
    ensures r.Err? <==> Lookup(posts, PostId, id).None? || Lookup(posts, PostId, id).value.userId != userId
    ensures r.Err? ==> r.error == Unauthorized
    ensures r.Ok? ==> r.value in posts && r.value.id == id && r.value.userId == userId
  {
    match Lookup(posts, PostId, id)
    case None => Err(Unauthorized)
    case Some(p) => if p.userId != userId then Err(Unauthorized) else Ok(p)
  }

  /** The columns `$updateData` assigns: each supplied field, and the slug chosen for it. */
  function Patched(before: Post, data: PostPatch, slug: string): (after: Post)
    ensures after.id == before.id && after.userId == before.userId && after.slug == slug
    ensures data.title.None? ==> after.title == before.title
    ensures data.title.Some? ==> after.title == data.title.value
    ensures data.body.None? ==> after.body == before.body
    ensures data.body.Some? ==> after.body == data.body.value
    ensures data.visibility.None? ==> after.visibility == before.visibility
    ensures data.visibility.Some? ==> after.visibility == data.visibility.value
    ensures data.meta.None? ==> after.meta == before.meta
    ensures data.meta.Some? ==> after.meta == data.meta
  {
    before.(title := if data.title.Some? then data.title.value else before.title,
            slug := slug,
            body := if data.body.Some? then data.body.value else before.body,
            visibility := if data.visibility.Some? then data.visibility.value else before.visibility,
            meta := if data.meta.Some? then data.meta else before.meta)
  }

  /** An update that supplies nothing leaves the post as it was. */
  lemma EmptyPatchIsIdentity(before: Post)
    ensures Patched(before, PostPatch(None, None, None, None), before.slug) == before
  {
  }

  /** Applying the same update twice is the same as applying it once. */
  lemma PatchedIdempotent(before: Post, data: PostPatch, slug: string)
    ensures Patched(Patched(before, data, slug), data, slug) == Patched(before, data, slug)
  {
  }

  /** The ids of a post's snippets (`$post->snippets()`). */
  function SnippetIdsOf(snippets: seq<Snippet>, postId: nat): (ids: set<nat>)
    ensures forall s :: s in snippets ==> (s.id in ids <== s.postId == postId)
  {
    set s | s in snippets && s.postId == postId :: s.id
  }

  /** Replacing a post by one with the same id and a slug no other post has keeps the posts table valid. */
  lemma ReplacePostKeepsPosts(posts: seq<Post>, before: Post, after: Post, next: nat)
    requires TableOk(posts, PostId, next) && SlugsUnique(posts) && before in posts && after.id == before.id
    requires !SlugTaken(posts, after.slug, Some(before.id))
    ensures TableOk(Replace(posts, PostId, before.id, after), PostId, next)
    ensures SlugsUnique(Replace(posts, PostId, before.id, after))
    ensures Ids(Replace(posts, PostId, before.id, after), PostId) == Ids(posts, PostId)
  {
    assert before.id in Ids(posts, PostId);
    ReplaceKeepsTable(posts, PostId, before.id, after, next);
    ReplaceIds(posts, PostId, before.id, after);
    ReplaceMembers(posts, PostId, before.id, after);
  }

  /** The new slug of `updatePost`: recomputed only for a title whose slug differs from the current one. */
  method UpdatedSlug(posts: seq<Post>, before: Post, title: Option<string>, slugify: string -> string)
    returns (slug: string)
    ensures title.None? || slugify(title.value) == before.slug ==> slug == before.slug
    ensures title.Some? && slugify(title.value) != before.slug ==>
      SmallestFreeSlug(posts, slugify(title.value), Some(before.id), slug)
    ensures SlugsUnique(posts) && before in posts ==> !SlugTaken(posts, slug, Some(before.id))
  {
    slug := before.slug;
    if title.Some? {
      var base := slugify(title.value);
      if base != before.slug {
        slug := UniqueSlug(posts, base, Some(before.id));
      }
    }
  }

  /** `PostService::updatePost`. */
  method UpdatePost(db: Db, id: int, data: PostPatch, userId: nat, slugify: string -> string)
    returns (r: Result<Post, PostError>)
    requires db.Valid()
    modifies db`posts, db`snippets, db`comments, db`nextId
    ensures db.Valid()
    ensures r.Err? <==> OwnPost(old(db.posts), id, userId).Err?
    ensures r.Err? ==> (r.error == Unauthorized && db.posts == old(db.posts) && db.snippets == old(db.snippets)
                        && db.comments == old(db.comments) && db.nextId == old(db.nextId))
    ensures r.Ok? ==> var before := OwnPost(old(db.posts), id, userId).value;
      && (data.title.None? || slugify(data.title.value) == before.slug ==> r.value.slug == before.slug)
      && (data.title.Some? && slugify(data.title.value) != before.slug ==>
            SmallestFreeSlug(old(db.posts), slugify(data.title.value), Some(before.id), r.value.slug))
      && r.value == Patched(before, data, r.value.slug)
      && db.posts == Replace(old(db.posts), PostId, before.id, r.value)
    ensures r.Ok? && data.body.None? ==>
      db.snippets == old(db.snippets) && db.comments == old(db.comments) && db.nextId == old(db.nextId)
    ensures r.Ok? && data.body.Some? ==> var gone := SnippetIdsOf(old(db.snippets), r.value.id);
      && db.comments == Cascade(old(db.comments), Deletion({}, gone, {}))
      && db.snippets == RemoveSnippets(old(db.snippets), gone) + Materialize(SnippetRows(data.body.value), r.value.id, old(db.nextId))
      && db.nextId == old(db.nextId) + |SnippetRows(data.body.value)|
  {
    var own := OwnPost(db.posts, id, userId);
    if own.Err? {
      return Err(Unauthorized);
    }
    var before := own.value;
    var slug := UpdatedSlug(db.posts, before, data.title, slugify);
    var after := Patched(before, data, slug);
    ReplacePostKeepsPosts(db.posts, before, after, db.nextId);
    db.posts := Replace(db.posts, PostId, before.id, after);
    if data.body.Some? {
      RecreateSnippets(db, before.id, data.body.value);
    }
    return Ok(after);
  }

  /**
   * `PostService::updatePost` as written, given whether `tags` was supplied: after the owner
   * check, supplied tags make the tag step throw, which rolls back the post update made
   * before it; without tags it is `UpdatePost`.
   */
  method UpdatePostAsWritten(db: Db, id: int, data: PostPatch, tags: Option<seq<string>>, userId: nat,
                             slugify: string -> string)
    returns (r: Result<Post, PostError>)
    requires db.Valid()
    modifies db`posts, db`snippets, db`comments, db`nextId
    ensures db.Valid()
    ensures r.Err? <==> OwnPost(old(db.posts), id, userId).Err? || tags.Some?
    ensures OwnPost(old(db.posts), id, userId).Err? ==> r == Err(Unauthorized)
    ensures OwnPost(old(db.posts), id, userId).Ok? && tags.Some? ==> r == Err(UndefinedRelation("tags"))
    ensures r.Err? ==> db.posts == old(db.posts) && db.snippets == old(db.snippets)
    ensures r.Err? ==> db.comments == old(db.comments) && db.nextId == old(db.nextId)
    ensures r.Ok? ==> r.value == Patched(OwnPost(old(db.posts), id, userId).value, data, r.value.slug)
    ensures r.Ok? ==> db.posts == Replace(old(db.posts), PostId, r.value.id, r.value)
  {
    var own := OwnPost(db.posts, id, userId);
    if own.Err? {
      return Err(Unauthorized);
    }
    var thrown := TagStepAsWritten(tags, true);
    if thrown.Some? {
      return Err(thrown.value);
    }
    r := UpdatePost(db, id, data, userId, slugify);
  }

  /** The body branch of `updatePost`: delete the post's snippets (and their comments), then recreate them. */
  method RecreateSnippets(db: Db, postId: nat, body: seq<Block>)
    requires db.Valid()
    modifies db`snippets, db`comments, db`nextId
    ensures db.Valid()
    ensures var gone := SnippetIdsOf(old(db.snippets), postId);
      && db.comments == Cascade(old(db.comments), Deletion({}, gone, {}))
      && db.snippets == RemoveSnippets(old(db.snippets), gone) + Materialize(SnippetRows(body), postId, old(db.nextId))
      && db.nextId == old(db.nextId) + |SnippetRows(body)|
  {
    var gone := SnippetIdsOf(db.snippets, postId);
    var d := Deletion({}, gone, {});
    var kept := RemoveSnippets(db.snippets, gone);
    forall s | s in db.snippets && s.id !in gone ensures s.id in Ids(kept, SnippetId) {
      assert s in kept;
    }
    forall p | p in db.posts ensures p.id in Ids(db.posts, PostId) {
    }
    CascadeSound(db.comments, db.snippets, db.posts, d, db.nextId, kept, db.posts);
    db.comments := Cascade(db.comments, d);
    db.snippets := kept;
    AddSnippets(db, postId, body);
  }

  /** `PostService::deletePost`: the post, its snippets, and every comment on either. */
  method DeletePost(db: Db, id: int, userId: nat) returns (r: Result<bool, PostError>)
    requires db.Valid()
    modifies db`posts, db`snippets, db`comments
    ensures db.Valid()
    ensures r.Err? <==> OwnPost(old(db.posts), id, userId).Err?
    ensures r.Err? ==> (r.error == Unauthorized && db.posts == old(db.posts) && db.snippets == old(db.snippets)
                        && db.comments == old(db.comments))
    ensures r.Ok? ==> var gone := SnippetIdsOf(old(db.snippets), id as nat);
      && r.value
      && db.posts == RemovePosts(old(db.posts), {id as nat})
      && db.snippets == RemoveSnippets(old(db.snippets), gone)
      && db.comments == Cascade(old(db.comments), Deletion({}, gone, {id as nat}))
  {
    var own := OwnPost(db.posts, id, userId);
    if own.Err? {
      return Err(Unauthorized);
    }
    var postId := own.value.id;
    var gone := SnippetIdsOf(db.snippets, postId);
    var d := Deletion({}, gone, {postId});
    var posts' := RemovePosts(db.posts, {postId});
    var snippets' := RemoveSnippets(db.snippets, gone);
    forall s | s in db.snippets && s.id !in gone ensures s.id in Ids(snippets', SnippetId) {
      assert s in snippets';
    }
    forall p | p in db.posts && p.id !in {postId} ensures p.id in Ids(posts', PostId) {
      assert p in posts';
    }
    CascadeSound(db.comments, db.snippets, db.posts, d, db.nextId, snippets', posts');
    db.comments := Cascade(db.comments, d);
    db.snippets := snippets';
    db.posts := posts';
    return Ok(true);
  }

  /**
   * `PostService::toggleLike` as written: after the post is found it calls `$post->likes()`,
   * but `Post` declares no `likes()` relation, so every call on an existing post throws
   * before any like is read or written.
   */
  function TogglePostLikeAsWritten(posts: seq<Post>, postId: int): (r: Result<(bool, nat), PostError>)
    ensures r.Err?
    ensures r.error == PostNotFound <==> Lookup(posts, PostId, postId).None?
    ensures r.error != PostNotFound ==> r.error == UndefinedRelation("likes")
  {
    if Lookup(posts, PostId, postId).None? then Err(PostNotFound) else Err(UndefinedRelation("likes"))
  }

  /**
   * The input that shows it: liking an existing post fails as written, where the intended
   * toggle (`TogglePostLike`, whose error case is exactly a missing post) succeeds.
   */
  lemma LikingAnExistingPostThrows(p: Post, others: seq<Post>)
    ensures Lookup([p] + others, PostId, p.id).Some?
    ensures TogglePostLikeAsWritten([p] + others, p.id) == Err(UndefinedRelation("likes"))
  {
    assert Find([p] + others, PostId, p.id) == Some(p);
  }

  /**
   * `PostService::toggleLike` as evidently intended, with a `likes()` relation on `Post`
   * like the one `Comment` declares: the like by (user, post) is removed if present and
   * added otherwise; the result is the new state and the post's like count after it,
   * exactly one above or below the count before.
   */
  method TogglePostLike(db: Db, postId: int, userId: nat) returns (r: Result<(bool, nat), PostError>)
    requires db.Valid()
    modifies db`likes
    ensures r.Err? <==> Lookup(db.posts, PostId, postId).None?
    ensures r.Err? ==> r.error == PostNotFound && db.likes == old(db.likes)
    ensures r.Ok? ==> postId >= 0
    ensures r.Ok? ==> var like := Like(userId, PostTarget(postId as nat));
      && db.likes == Toggle(old(db.likes), like)
      && r.value.0 == (like in db.likes) == (like !in old(db.likes))
      && r.value.1 == LikeCount(db.likes, like.target)
    ensures r.Ok? ==> var t := PostTarget(postId as nat);
      r.value.1 == if r.value.0 then LikeCount(old(db.likes), t) + 1 else LikeCount(old(db.likes), t) - 1
  {
    var post := Lookup(db.posts, PostId, postId);
    if post.None? {
      return Err(PostNotFound);
    }
    var like := Like(userId, PostTarget(post.value.id));
    var liked: bool;
    if like in db.likes {
      db.likes := db.likes - {like};
      liked := false;
    } else {
      db.likes := db.likes + {like};
      liked := true;
    }
    ToggleLikeCount(old(db.likes), like);
    return Ok((liked, LikeCount(db.likes, like.target)));
  }
}
