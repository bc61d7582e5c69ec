/**
 * `FollowController`: following and unfollowing users, and the counts reported back.
 */
module Follows {
  import opened Common
  import opened Records
  import opened Store

  datatype FollowError = CannotFollowSelf | AlreadyFollowing

  /** `following`, then the followed user's `followers_count` and own `following_count`. */
  datatype FollowResponse = FollowResponse(following: bool, followersCount: nat, followingCount: nat)

  function Followers(follows: set<Follow>, userId: nat): set<nat>
  {
    set f | f in follows && f.followingId == userId :: f.followerId
  }

  function Following(follows: set<Follow>, userId: nat): set<nat>
  {
    set f | f in follows && f.followerId == userId :: f.followingId
  }

  /** `check`: whether `followerId` follows `userId`. */
  function IsFollowing(follows: set<Follow>, followerId: nat, userId: nat): (b: bool)
    ensures b <==> followerId in Followers(follows, userId)
    ensures b <==> userId in Following(follows, followerId)
  {
    assert Follow(followerId, userId) in follows ==> followerId in Followers(follows, userId);
    assert Follow(followerId, userId) in follows ==> userId in Following(follows, followerId);
    Follow(followerId, userId) in follows
  }

  /** The counts in a response: both are about the user in the route, not the caller. */
  function Response(follows: set<Follow>, following: bool, userId: nat): FollowResponse
  {
    FollowResponse(following, |Followers(follows, userId)|, |Following(follows, userId)|)
  }

  /** A new follower raises the followed user's follower count by exactly one. */
  lemma FollowAddsFollower(follows: set<Follow>, followerId: nat, userId: nat)
    requires Follow(followerId, userId) !in follows
    ensures |Followers(follows + {Follow(followerId, userId)}, userId)| == |Followers(follows, userId)| + 1
  {
    assert followerId !in Followers(follows, userId);
    assert Followers(follows + {Follow(followerId, userId)}, userId) == Followers(follows, userId) + {followerId};
  }

  /** `follow`: refused for oneself and for a user already followed; otherwise attach the pair. */
  method FollowUser(db: Db, followerId: nat, userId: nat) returns (r: Result<FollowResponse, FollowError>)
    requires db.Valid()
    modifies db`follows
    ensures db.Valid()
    ensures followerId == userId ==> r == Err(CannotFollowSelf)
    ensures followerId != userId && IsFollowing(old(db.follows), followerId, userId) ==> r == Err(AlreadyFollowing)
    ensures r.Err? ==> db.follows == old(db.follows)
    ensures r.Ok? ==> db.follows == old(db.follows) + {Follow(followerId, userId)}
    ensures r.Ok? ==> r.value == Response(db.follows, true, userId)
    ensures r.Ok? <==> followerId != userId && !IsFollowing(old(db.follows), followerId, userId)
  {
    if followerId == userId {
      return Err(CannotFollowSelf);
    }
    if Follow(followerId, userId) in db.follows {
      return Err(AlreadyFollowing);
    }
    db.follows := db.follows + {Follow(followerId, userId)};
    r := Ok(Response(db.follows, true, userId));
  }

  /** `unfollow`: detach the pair whether or not it was there. */
  method UnfollowUser(db: Db, followerId: nat, userId: nat) returns (r: FollowResponse)
    requires db.Valid()
    modifies db`follows
    ensures db.Valid()
    ensures db.follows == old(db.follows) - {Follow(followerId, userId)}
    ensures r == Response(db.follows, false, userId)
  {
    db.follows := db.follows - {Follow(followerId, userId)};
    r := Response(db.follows, false, userId);
  }

  /**
   * After a successful follow, `check` reports true; after an unfollow it reports false;
   * following and then unfollowing someone not followed before restores the relation.
   */
  lemma FollowThenCheck(follows: set<Follow>, followerId: nat, userId: nat)
    ensures IsFollowing(follows + {Follow(followerId, userId)}, followerId, userId)
    ensures !IsFollowing(follows - {Follow(followerId, userId)}, followerId, userId)
    ensures !IsFollowing(follows, followerId, userId) ==>
      (follows + {Follow(followerId, userId)}) - {Follow(followerId, userId)} == follows
  {
  }

  /** Nobody ever follows themself through `follow`. */
  lemma FollowKeepsNoSelfFollow(follows: set<Follow>, followerId: nat, userId: nat)
    requires forall f :: f in follows ==> f.followerId != f.followingId
    requires followerId != userId
    ensures forall f :: f in follows + {Follow(followerId, userId)} ==> f.followerId != f.followingId
  {
  }
}
