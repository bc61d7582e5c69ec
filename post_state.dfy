/**
 * The client-side post store: which posts the viewer likes, which likes are still on their
 * way to the server, comments shown before the server has them, and the like/comment
 * deltas added on top of the counts the server last sent.
 */
module PostState {
  import opened Common
  import opened Records

  /** The optimistic additions to one post's counts. */
  datatype Delta = Delta(likes: int, comments: int)

  /** Counts as the server sent them; `rest` stands for the other fields, passed through. */
  datatype Stats<R> = Stats(likes: int, comments: int, rest: R)

  /** A comment shown before the server has stored it, under a temporary id. */
  datatype PendingComment = PendingComment(body: string, id: string, isPending: bool)

  const NoDelta := Delta(0, 0)

  /** `optimisticStats.get(postId) || { likes: 0, comments: 0 }`. */
  function Current(stats: map<nat, Delta>, postId: nat): (d: Delta)
    ensures postId !in stats ==> d == NoDelta
    ensures postId in stats ==> d == stats[postId]
  {
    if postId in stats then stats[postId] else NoDelta
  }

  /** `getOptimisticStats`: the server's counts, plus the post's deltas when it has any. */
  function WithOptimistic<R>(stats: map<nat, Delta>, postId: nat, base: Stats<R>): (r: Stats<R>)
    ensures postId !in stats ==> r == base
    ensures r.rest == base.rest
    ensures r.likes == base.likes + Current(stats, postId).likes
    ensures r.comments == base.comments + Current(stats, postId).comments
  {
    if postId !in stats then base
    else base.(likes := base.likes + stats[postId].likes, comments := base.comments + stats[postId].comments)
  }

  /** A set with `postId` added (`on`) or deleted. */
  function Marked(s: set<nat>, postId: nat, on: bool): (r: set<nat>)
    ensures postId in r <==> on
    ensures r - {postId} == s - {postId}
  {
    if on then s + {postId} else s - {postId}
  }

  /** The optimistic like step: the likes delta moves by one, up or down; it is created if missing. */
  function LikeMoved(stats: map<nat, Delta>, postId: nat, up: bool): (r: map<nat, Delta>)
    ensures postId in r && r.Keys == stats.Keys + {postId}
    ensures r[postId] == Current(stats, postId).(likes := Current(stats, postId).likes + if up then 1 else -1)
    ensures forall p :: p in stats && p != postId ==> r[p] == stats[p]
  {
    var d := Current(stats, postId);
    stats[postId := d.(likes := d.likes + if up then 1 else -1)]
  }

  /** The error path: the likes delta moves back, only if the post still has an entry. */
  function LikeReverted(stats: map<nat, Delta>, postId: nat, up: bool): (r: map<nat, Delta>)
    ensures r.Keys == stats.Keys
    ensures postId in stats ==> r[postId] == stats[postId].(likes := stats[postId].likes + if up then -1 else 1)
    ensures forall p :: p in stats && p != postId ==> r[p] == stats[p]
  {
    if postId in stats then stats[postId := stats[postId].(likes := stats[postId].likes + if up then -1 else 1)]
    else stats
  }

  /** One more optimistic comment. */
  function CommentAdded(stats: map<nat, Delta>, postId: nat): (r: map<nat, Delta>)
    ensures postId in r && r.Keys == stats.Keys + {postId}
    ensures r[postId] == Current(stats, postId).(comments := Current(stats, postId).comments + 1)
    ensures forall p :: p in stats && p != postId ==> r[p] == stats[p]
  {
    var d := Current(stats, postId);
    stats[postId := d.(comments := d.comments + 1)]
  }

  /** One optimistic comment fewer, never below zero. */
  function CommentRemoved(stats: map<nat, Delta>, postId: nat): (r: map<nat, Delta>)
    ensures postId in r && r.Keys == stats.Keys + {postId}
    ensures r[postId].likes == Current(stats, postId).likes
    ensures r[postId].comments >= 0
    ensures r[postId].comments == if Current(stats, postId).comments >= 1 then Current(stats, postId).comments - 1 else 0
    ensures forall p :: p in stats && p != postId ==> r[p] == stats[p]
  {
    var d := Current(stats, postId);
    stats[postId := d.(comments := if d.comments - 1 > 0 then d.comments - 1 else 0)]
  }

  /** A post's pending comments, none when it has no entry. */
  function PendingOf(pending: map<nat, seq<PendingComment>>, postId: nat): seq<PendingComment>
  {
    if postId in pending then pending[postId] else []
  }

  predicate NotTemp(c: PendingComment, tempId: string)
  {
    c.id != tempId
  }

  /** `pending.filter((c) => c.id !== tempId)`. */
  function WithoutTemp(pending: seq<PendingComment>, tempId: string): (r: seq<PendingComment>)
    ensures forall c :: c in r <==> c in pending && c.id != tempId
  {
    Filter(pending, c => NotTemp(c, tempId))
  }

  /**
   * Undoing the optimistic like step on error restores every post's displayed counts, even
   * for a post that had no entry before (it is left with a zero entry).
   */
  lemma RevertUndoesLike<R>(stats: map<nat, Delta>, postId: nat, up: bool, other: nat, base: Stats<R>)
    ensures WithOptimistic(LikeReverted(LikeMoved(stats, postId, up), postId, up), other, base)
      == WithOptimistic(stats, other, base)
  {
    var after := LikeReverted(LikeMoved(stats, postId, up), postId, up);
    if other == postId {
      assert after[postId] == Current(stats, postId);
      if postId !in stats {
        assert WithOptimistic(after, other, base) == base.(likes := base.likes + 0, comments := base.comments + 0);
      }
    }
  }

  /** The like step moves the displayed like count by exactly one and nothing else. */
  lemma LikeMovesOne<R>(stats: map<nat, Delta>, postId: nat, up: bool, base: Stats<R>)
    ensures var before, after := WithOptimistic(stats, postId, base), WithOptimistic(LikeMoved(stats, postId, up), postId, base);
      after.likes == before.likes + (if up then 1 else -1)
      && after.comments == before.comments && after.rest == before.rest
  {
  }

  /** Removing a comment right after adding one restores a non-negative comments delta. */
  lemma AddThenRemoveComment(stats: map<nat, Delta>, postId: nat)
    requires Current(stats, postId).comments >= 0
    ensures CommentRemoved(CommentAdded(stats, postId), postId)[postId] == Current(stats, postId)
  {
  }

  /** Filtering out a fresh temporary id after appending it gives back the earlier list. */
  lemma {:induction false} RemoveFreshPending(pending: seq<PendingComment>, c: PendingComment)
    requires forall x :: x in pending ==> x.id != c.id
    ensures WithoutTemp(pending + [c], c.id) == pending
    decreases |pending|
  {
    var keep := (x: PendingComment) => NotTemp(x, c.id);
    FilterAppend(pending, c, keep);
    FilterAll(pending, keep);
  }

  class PostStore {
    var likedPosts: set<nat>
    var pendingLikes: set<nat>
    var pendingComments: map<nat, seq<PendingComment>>
    var optimisticStats: map<nat, Delta>

    constructor()
      ensures likedPosts == {} && pendingLikes == {} && pendingComments == map[] && optimisticStats == map[]
    {
      likedPosts := {};
      pendingLikes := {};
      pendingComments := map[];
      optimisticStats := map[];
    }

    /** `isLiked`. */
    predicate IsLiked(postId: nat)
      reads this
    {
      postId in likedPosts
    }

    /**
     * `toggleLike`, up to the request: the post becomes liked unless it was liked (by the
     * store or by the caller's `currentLiked`); the like and the pending mark follow it, and
     * the likes delta moves by one. The returned flag is what the request's callbacks see.
     */
    method ToggleLike(postId: nat, currentLiked: bool) returns (isNowLiked: bool)
      modifies this
      ensures isNowLiked <==> !(postId in old(likedPosts) || currentLiked)
      ensures likedPosts == Marked(old(likedPosts), postId, isNowLiked)
      ensures pendingLikes == Marked(old(pendingLikes), postId, isNowLiked)
      ensures optimisticStats == LikeMoved(old(optimisticStats), postId, isNowLiked)
      ensures pendingComments == old(pendingComments)
    {
      var wasLiked := postId in likedPosts || currentLiked;
      isNowLiked := !wasLiked;
      if isNowLiked {
        likedPosts := likedPosts + {postId};
        pendingLikes := pendingLikes + {postId};
      } else {
        likedPosts := likedPosts - {postId};
        pendingLikes := pendingLikes - {postId};
      }
      var d := Current(optimisticStats, postId);
      optimisticStats := optimisticStats[postId := d.(likes := if isNowLiked then d.likes + 1 else d.likes - 1)];
    }

    /** The request's `onSuccess`: only the pending mark goes. */
    method LikeSucceeded(postId: nat)
      modifies this
      ensures pendingLikes == old(pendingLikes) - {postId}
      ensures likedPosts == old(likedPosts) && optimisticStats == old(optimisticStats)
      ensures pendingComments == old(pendingComments)
    {
      pendingLikes := pendingLikes - {postId};
    }

    /**
     * The request's `onError`: the like goes back to what it was before the toggle, the
     * likes delta moves back if the post still has one, and the pending mark goes.
     */
    method LikeFailed(postId: nat, isNowLiked: bool)
      modifies this
      ensures likedPosts == Marked(old(likedPosts), postId, !isNowLiked)
      ensures optimisticStats == LikeReverted(old(optimisticStats), postId, isNowLiked)
      ensures pendingLikes == old(pendingLikes) - {postId}
      ensures pendingComments == old(pendingComments)
    {
      if isNowLiked {
        likedPosts := likedPosts - {postId};
        if postId in optimisticStats {
          var d := optimisticStats[postId];
          optimisticStats := optimisticStats[postId := d.(likes := d.likes - 1)];
        }
      } else {
        likedPosts := likedPosts + {postId};
        if postId in optimisticStats {
          var d := optimisticStats[postId];
          optimisticStats := optimisticStats[postId := d.(likes := d.likes + 1)];
        }
      }
      pendingLikes := pendingLikes - {postId};
    }

    /** `addOptimisticComment`: one pending comment more, under the given temporary id. */
    method AddOptimisticComment(postId: nat, body: string, tempId: string)
      modifies this
      ensures pendingComments == old(pendingComments)[postId := PendingOf(old(pendingComments), postId) + [PendingComment(body, tempId, true)]]
      ensures optimisticStats == CommentAdded(old(optimisticStats), postId)
      ensures likedPosts == old(likedPosts) && pendingLikes == old(pendingLikes)
    {
      var pending := PendingOf(pendingComments, postId);
      pending := pending + [PendingComment(body, tempId, true)];
      pendingComments := pendingComments[postId := pending];
      var d := Current(optimisticStats, postId);
      optimisticStats := optimisticStats[postId := d.(comments := d.comments + 1)];
    }

    /**
     * `removeOptimisticComment`: the comments with that temporary id go, and the comments
     * delta drops by one (not below zero) whether or not one was found.
     */
    method RemoveOptimisticComment(postId: nat, tempId: string)
      modifies this
      ensures pendingComments == old(pendingComments)[postId := WithoutTemp(PendingOf(old(pendingComments), postId), tempId)]
      ensures optimisticStats == CommentRemoved(old(optimisticStats), postId)
      ensures likedPosts == old(likedPosts) && pendingLikes == old(pendingLikes)
    {
      var pending := PendingOf(pendingComments, postId);
      var filtered := WithoutTemp(pending, tempId);
      pendingComments := pendingComments[postId := filtered];
      var d := Current(optimisticStats, postId);
      optimisticStats := optimisticStats[postId := d.(comments := if d.comments - 1 > 0 then d.comments - 1 else 0)];
    }

    /** `clearOptimisticComments`: that post's pending comments go, nothing else. */
    method ClearOptimisticComments(postId: nat)
      modifies this
      ensures pendingComments == old(pendingComments) - {postId}
      ensures likedPosts == old(likedPosts) && pendingLikes == old(pendingLikes)
      ensures optimisticStats == old(optimisticStats)
    {
      pendingComments := pendingComments - {postId};
    }

    /** `syncPostLiked`: the server's word on whether the post is liked. */
    method SyncPostLiked(postId: nat, isLiked: bool)
      modifies this
      ensures likedPosts == Marked(old(likedPosts), postId, isLiked)
      ensures pendingLikes == old(pendingLikes) && pendingComments == old(pendingComments)
      ensures optimisticStats == old(optimisticStats)
    {
      if isLiked {
        likedPosts := likedPosts + {postId};
      } else {
        likedPosts := likedPosts - {postId};
      }
    }

    /** `resetOptimisticStats`: that post's deltas go, nothing else. */
    method ResetOptimisticStats(postId: nat)
      modifies this
      ensures optimisticStats == old(optimisticStats) - {postId}
      ensures likedPosts == old(likedPosts) && pendingLikes == old(pendingLikes)
      ensures pendingComments == old(pendingComments)
    {
      optimisticStats := optimisticStats - {postId};
    }
  }

  /** Toggling and then failing leaves the like as it was before the toggle decided. */
  lemma ToggleThenFailRestoresLike(liked: set<nat>, postId: nat, currentLiked: bool)
    ensures var isNowLiked := !(postId in liked || currentLiked);
      var after := Marked(Marked(liked, postId, isNowLiked), postId, !isNowLiked);
      (postId in after <==> postId in liked || currentLiked) && after - {postId} == liked - {postId}
  {
  }
}
