/**
 * The Comment model's own behaviour: the `updating` hook that stamps `edited_at`, and
 * `resolve` / `unresolve`, which update the three resolution columns of one row.
 */
module CommentModel {
  import opened Common
  import opened Records
  import opened Store

  /**
   * The attributes an Eloquent `update([...])` call assigns; `None` leaves a column as it is.
   * The nullable resolution columns take an `Option` of their new value.
   */
  datatype Patch = Patch(
    body: Option<string>,
    resolved: Option<bool>,
    resolvedAt: Option<Option<nat>>,
    resolvedBy: Option<Option<nat>>)

  /** The attributes after `fill`, before the hook runs. */
  function Fill(c: Comment, p: Patch): Comment
  {
    c.(body := if p.body.Some? then p.body.value else c.body,
       resolved := if p.resolved.Some? then p.resolved.value else c.resolved,
       resolvedAt := if p.resolvedAt.Some? then p.resolvedAt.value else c.resolvedAt,
       resolvedBy := if p.resolvedBy.Some? then p.resolvedBy.value else c.resolvedBy)
  }

  /**
   * Saving an update: the `updating` hook sets `edited_at` to `now` when the body is dirty,
   * that is, when the new body differs from the stored one.
   */
  function Save(c: Comment, p: Patch, now: nat): (r: Comment)
    ensures r.body != c.body ==> r.editedAt == Some(now)
    ensures r.body == c.body ==> r.editedAt == c.editedAt
    ensures r.(editedAt := c.editedAt) == Fill(c, p)
  {
    var filled := Fill(c, p);
    if filled.body != c.body then filled.(editedAt := Some(now)) else filled
  }

  /** `resolve($user)`. */
  function ResolvePatch(userId: nat, now: nat): Patch
  {
    Patch(None, Some(true), Some(Some(now)), Some(Some(userId)))
  }

  /** `unresolve()`. */
  function UnresolvePatch(): Patch
  {
    Patch(None, Some(false), Some(None), Some(None))
  }

  /** Resolving marks the row resolved by the user at `now` and changes no other column. */
  lemma ResolveSetsThreeFields(c: Comment, userId: nat, now: nat)
    ensures Save(c, ResolvePatch(userId, now), now) ==
      c.(resolved := true, resolvedAt := Some(now), resolvedBy := Some(userId))
  {
  }

  /** Unresolving clears the three resolution columns and changes no other column. */
  lemma UnresolveClearsThreeFields(c: Comment, now: nat)
    ensures Save(c, UnresolvePatch(), now) == c.(resolved := false, resolvedAt := None, resolvedBy := None)
  {
  }

  /** `resolve` then `unresolve` leaves the resolution columns cleared, whatever they held before. */
  lemma ResolveThenUnresolve(c: Comment, userId: nat, t1: nat, t2: nat)
    ensures Save(Save(c, ResolvePatch(userId, t1), t1), UnresolvePatch(), t2) ==
      c.(resolved := false, resolvedAt := None, resolvedBy := None)
  {
  }

  /** A body-only update: every column but `body` and `edited_at` keeps its value. */
  lemma BodyUpdateTouchesOnlyBody(c: Comment, body: string, now: nat)
    ensures Save(c, Patch(Some(body), None, None, None), now).(body := c.body, editedAt := c.editedAt) == c
    ensures Save(c, Patch(Some(body), None, None, None), now).body == body
    ensures Save(c, Patch(Some(body), None, None, None), now).editedAt ==
      if body != c.body then Some(now) else c.editedAt
  {
  }

  /** Save an update to the row with id `id`, as `$comment->update([...])` does. */
  method Update(db: Db, id: nat, p: Patch, now: nat) returns (row: Comment)
    requires db.Valid() && id in Ids(db.comments, CommentId)
    modifies db`comments
    ensures db.Valid()
    ensures Find(old(db.comments), CommentId, id).Some?
    ensures row == Save(Find(old(db.comments), CommentId, id).value, p, now)
    ensures db.comments == Replace(old(db.comments), CommentId, id, row)
  {
    var found := Find(db.comments, CommentId, id);
    var before := found.value;
    row := Save(before, p, now);
    ReplaceCommentKeepsRefs(db.comments, db.snippets, db.posts, id, before, row, db.nextId);
    db.comments := Replace(db.comments, CommentId, id, row);
  }

  /** `Comment::resolve`. */
  method Resolve(db: Db, id: nat, userId: nat, now: nat) returns (row: Comment)
    requires db.Valid() && id in Ids(db.comments, CommentId)
    modifies db`comments
    ensures db.Valid()
    ensures Find(old(db.comments), CommentId, id).Some?
    ensures row == Find(old(db.comments), CommentId, id).value.(resolved := true, resolvedAt := Some(now), resolvedBy := Some(userId))
    ensures db.comments == Replace(old(db.comments), CommentId, id, row)
  {
    row := Update(db, id, ResolvePatch(userId, now), now);
    ResolveSetsThreeFields(Find(old(db.comments), CommentId, id).value, userId, now);
  }

  /** `Comment::unresolve`. */
  method Unresolve(db: Db, id: nat, now: nat) returns (row: Comment)
    requires db.Valid() && id in Ids(db.comments, CommentId)
    modifies db`comments
    ensures db.Valid()
    ensures Find(old(db.comments), CommentId, id).Some?
    ensures row == Find(old(db.comments), CommentId, id).value.(resolved := false, resolvedAt := None, resolvedBy := None)
    ensures db.comments == Replace(old(db.comments), CommentId, id, row)
  {
    row := Update(db, id, UnresolvePatch(), now);
    UnresolveClearsThreeFields(Find(old(db.comments), CommentId, id).value, now);
  }
}
