/**
 * `BookmarkController`: at most one bookmark per user and post (`firstOrCreate`), removal,
 * and the caller's bookmarks, optionally in one folder.
 */
module Bookmarks {
  import opened Common
  import opened Records
  import opened Store

  /** The caller's bookmark of that post, if any (the first, and with the unique index the only). */
  function BookmarkOf(bookmarks: seq<Bookmark>, userId: nat, postId: nat): (r: Option<Bookmark>)
    ensures r.Some? ==> r.value in bookmarks && r.value.userId == userId && r.value.postId == postId
    ensures r.None? ==> forall b :: b in bookmarks ==> !(b.userId == userId && b.postId == postId)
  {
    if bookmarks == [] then None
    else if bookmarks[0].userId == userId && bookmarks[0].postId == postId then Some(bookmarks[0])
    else BookmarkOf(bookmarks[1..], userId, postId)
  }

  /** Appending a pair that is not yet bookmarked keeps the unique index. */
  lemma AppendKeepsOnePerPost(bookmarks: seq<Bookmark>, b: Bookmark)
    requires OneBookmarkPerPost(bookmarks)
    requires forall x :: x in bookmarks ==> !(x.userId == b.userId && x.postId == b.postId)
    ensures OneBookmarkPerPost(bookmarks + [b])
  {
    var all := bookmarks + [b];
    forall i, j | 0 <= i < j < |all| ensures UserPost(all[i]) != UserPost(all[j]) {
      if j == |bookmarks| {
        assert all[i] in bookmarks;
      }
    }
  }

  /**
   * `store`: return the existing bookmark untouched (its folder included), or create one
   * with the requested folder. Either way exactly one bookmark of the pair exists after.
   */
  method StoreBookmark(db: Db, userId: nat, postId: nat, folderName: Option<string>) returns (b: Bookmark)
    requires db.Valid()
    modifies db`bookmarks, db`nextId
    ensures db.Valid()
    ensures b.userId == userId && b.postId == postId
    ensures BookmarkOf(old(db.bookmarks), userId, postId).Some? ==>
      b == BookmarkOf(old(db.bookmarks), userId, postId).value && db.bookmarks == old(db.bookmarks)
      && db.nextId == old(db.nextId)
    ensures BookmarkOf(old(db.bookmarks), userId, postId).None? ==>
      b == Bookmark(old(db.nextId), userId, postId, folderName) && db.bookmarks == old(db.bookmarks) + [b]
      && db.nextId == old(db.nextId) + 1
  {
    var existing := BookmarkOf(db.bookmarks, userId, postId);
    if existing.Some? {
      return existing.value;
    }
    b := Bookmark(db.nextId, userId, postId, folderName);
    AppendKeepsOnePerPost(db.bookmarks, b);
    IdsAppend(db.bookmarks, BookmarkId, b);
    db.bookmarks := db.bookmarks + [b];
    db.nextId := db.nextId + 1;
  }

  /** In a valid table a user has at most one bookmark per post. */
  lemma OneBookmarkOfPair(bookmarks: seq<Bookmark>, x: Bookmark, y: Bookmark)
    requires OneBookmarkPerPost(bookmarks) && x in bookmarks && y in bookmarks
    requires x.userId == y.userId && x.postId == y.postId
    ensures x == y
  {
    var i :| 0 <= i < |bookmarks| && bookmarks[i] == x;
    var j :| 0 <= j < |bookmarks| && bookmarks[j] == y;
    assert !(i < j) && !(j < i);
  }

  /** Storing twice is storing once: the second call finds the first call's bookmark. */
  lemma StoreIdempotent(bookmarks: seq<Bookmark>, b: Bookmark)
    requires BookmarkOf(bookmarks, b.userId, b.postId).None?
    ensures BookmarkOf(bookmarks + [b], b.userId, b.postId) == Some(b)
  {
    BookmarkOfAppend(bookmarks, b, b.userId, b.postId);
  }

  lemma {:induction false} BookmarkOfAppend(bookmarks: seq<Bookmark>, b: Bookmark, userId: nat, postId: nat)
    ensures BookmarkOf(bookmarks + [b], userId, postId) ==
      if BookmarkOf(bookmarks, userId, postId).Some? then BookmarkOf(bookmarks, userId, postId)
      else if b.userId == userId && b.postId == postId then Some(b) else None
    decreases |bookmarks|
  {
    if bookmarks != [] {
      assert (bookmarks + [b])[1..] == bookmarks[1..] + [b];
      BookmarkOfAppend(bookmarks[1..], b, userId, postId);
    }
  }

  /** `DELETE ... WHERE user_id AND bookmarkable_id`: every other row stays, in order. */
  function Without(bookmarks: seq<Bookmark>, userId: nat, postId: nat): (r: seq<Bookmark>)
    ensures forall b :: b in r <==> b in bookmarks && !(b.userId == userId && b.postId == postId)
    ensures forall b :: multiset(r)[b] == if b.userId == userId && b.postId == postId then 0 else multiset(bookmarks)[b]
  {
    var keep := (b: Bookmark) => !(b.userId == userId && b.postId == postId);
    FilterCount(bookmarks, keep);
    Filter(bookmarks, keep)
  }

  /** `destroy`. */
  method Destroy(db: Db, userId: nat, postId: nat)
    requires db.Valid()
    modifies db`bookmarks
    ensures db.Valid()
    ensures db.bookmarks == Without(old(db.bookmarks), userId, postId)
  {
    var kept := Without(db.bookmarks, userId, postId);
    WithoutKeepsTable(db.bookmarks, userId, postId, db.nextId);
    db.bookmarks := kept;
  }

  /** Deleting rows keeps ids unique and in range, and keeps one bookmark per pair. */
  lemma WithoutKeepsTable(bookmarks: seq<Bookmark>, userId: nat, postId: nat, next: nat)
    requires TableOk(bookmarks, BookmarkId, next) && OneBookmarkPerPost(bookmarks)
    ensures TableOk(Without(bookmarks, userId, postId), BookmarkId, next)
    ensures OneBookmarkPerPost(Without(bookmarks, userId, postId))
  {
    var keep := (b: Bookmark) => !(b.userId == userId && b.postId == postId);
    FilterKeepsUniqueIds(bookmarks, BookmarkId, keep);
    FilterKeepsUniqueIds(bookmarks, UserPost, keep);
  }

  /** The `where` clauses of `index`: the caller's, and in the folder when a truthy one is given. */
  predicate InFolder(b: Bookmark, userId: nat, folder: Option<string>)
  {
    b.userId == userId && (StringIsSet(folder) ==> b.folderName == folder)
  }

  /** `index`: the caller's bookmarks; a truthy `folder` restricts them to that folder. */
  function Index(bookmarks: seq<Bookmark>, userId: nat, folder: Option<string>): (r: seq<Bookmark>)
    ensures forall b :: b in r <==>
      b in bookmarks && b.userId == userId && (StringIsSet(folder) ==> b.folderName == folder)
    ensures forall b :: multiset(r)[b] == if InFolder(b, userId, folder) then multiset(bookmarks)[b] else 0
  {
    var keep := (b: Bookmark) => InFolder(b, userId, folder);
    FilterCount(bookmarks, keep);
    Filter(bookmarks, keep)
  }
}
