/**
 * `ReactionController`: toggling one user's reaction of one type on a post or comment,
 * and the per-type counts reported after it.
 */
module Reactions {
  import opened Common
  import opened Records
  import opened Store

  const ReactionTypes: set<string> := {"like", "love", "wow", "clap", "lightbulb", "laugh"}

  /** The route's `{type}`: `post` names a post, anything else a comment. */
  function TargetOf(routeType: string, id: nat): (t: Target)
    ensures routeType == "post" ==> t == PostTarget(id)
    ensures routeType != "post" ==> t == CommentTarget(id)
  {
    if routeType == "post" then PostTarget(id) else CommentTarget(id)
  }

  /** `'reaction_type' => 'required|in:like,love,wow,clap,lightbulb,laugh'`. */
  predicate ValidType(reactionType: Option<string>)
  {
    reactionType.Some? && reactionType.value in ReactionTypes
  }

  /** The rows of one type on one target. */
  function OfKind(reactions: set<Reaction>, target: Target, kind: string): set<Reaction>
  {
    set x | x in reactions && x.target == target && x.kind == kind
  }

  /** The `GROUP BY type` counts: a key for every type present on the target. */
  function Counts(reactions: set<Reaction>, target: Target): (m: map<string, nat>)
    ensures forall k :: k in m <==> exists x :: x in reactions && x.target == target && x.kind == k
    ensures forall k :: k in m ==> m[k] == |OfKind(reactions, target, k)| && m[k] >= 1
  {
    var kinds := set x | x in reactions && x.target == target :: x.kind;
    var m := map k | k in kinds :: |OfKind(reactions, target, k)|;
    assert forall k :: k in m ==> m[k] >= 1 by {
      forall k | k in m ensures m[k] >= 1 {
        var x :| x in reactions && x.target == target && x.kind == k;
        assert x in OfKind(reactions, target, k);
      }
    }
    m
  }

  datatype Action = Added | Removed

  datatype ToggleResponse = ToggleResponse(action: Action, reactionType: string, counts: map<string, nat>)

  datatype ReactionError = ValidationFailed

  /**
   * Toggling moves the toggled type's count on that target by one, up when the row was
   * absent and down when present, and leaves every other type's count alone.
   */
  lemma ToggleMovesOneCount(reactions: set<Reaction>, x: Reaction, kind: string)
    ensures |OfKind(Toggle(reactions, x), x.target, kind)| ==
      if kind != x.kind then |OfKind(reactions, x.target, kind)|
      else if x in reactions then |OfKind(reactions, x.target, kind)| - 1
      else |OfKind(reactions, x.target, kind)| + 1
  {
    var before := OfKind(reactions, x.target, kind);
    var after := OfKind(Toggle(reactions, x), x.target, kind);
    if kind != x.kind {
      assert after == before;
    } else if x in reactions {
      assert after == before - {x};
    } else {
      assert after == before + {x};
    }
  }

  /** Other targets' counts do not move. */
  lemma ToggleOtherTarget(reactions: set<Reaction>, x: Reaction, target: Target)
    requires target != x.target
    ensures Counts(Toggle(reactions, x), target) == Counts(reactions, target)
  {
    forall k ensures OfKind(Toggle(reactions, x), target, k) == OfKind(reactions, target, k) {
    }
  }

  /** `toggle`: delete the caller's row of that type on that target if there is one, else insert it. */
  method ToggleReaction(db: Db, userId: nat, routeType: string, id: nat, reactionType: Option<string>)
    returns (r: Result<ToggleResponse, ReactionError>)
    requires db.Valid()
    modifies db`reactions
    ensures db.Valid()
    ensures !ValidType(reactionType) <==> r.Err?
    ensures r.Err? ==> db.reactions == old(db.reactions)
    ensures r.Ok? ==>
      var x := Reaction(userId, TargetOf(routeType, id), reactionType.value);
      db.reactions == Toggle(old(db.reactions), x)
      && (r.value.action == Removed <==> x in old(db.reactions))
      && r.value.reactionType == reactionType.value
      && r.value.counts == Counts(db.reactions, x.target)
  {
    if !ValidType(reactionType) {
      return Err(ValidationFailed);
    }
    var target := TargetOf(routeType, id);
    var x := Reaction(userId, target, reactionType.value);
    var action;
    if x in db.reactions {
      db.reactions := db.reactions - {x};
      action := Removed;
    } else {
      db.reactions := db.reactions + {x};
      action := Added;
    }
    r := Ok(ToggleResponse(action, reactionType.value, Counts(db.reactions, target)));
  }

  datatype IndexResponse = IndexResponse(reactions: set<Reaction>, counts: map<string, nat>)

  /** `index`: every reaction on the target, with the same per-type counts. */
  function Index(reactions: set<Reaction>, routeType: string, id: nat): (r: IndexResponse)
    ensures forall x :: x in r.reactions <==> x in reactions && x.target == TargetOf(routeType, id)
    ensures r.counts == Counts(r.reactions, TargetOf(routeType, id))
  {
    var target := TargetOf(routeType, id);
    var on := set x | x in reactions && x.target == target;
    assert Counts(on, target) == Counts(reactions, target) by {
      forall k ensures OfKind(on, target, k) == OfKind(reactions, target, k) {
      }
    }
    IndexResponse(on, Counts(reactions, target))
  }
}
