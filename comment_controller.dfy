/**
 * The web `CommentController`: mapping a code block id to a snippet, selecting and
 * flattening the threads shown for one line, and the comment data built by `storeThread`
 * and `storeInlineComment` before they call the comment service.
 */
module CommentController {
  import opened Common
  import opened Sorting
  import opened Records
  import opened Store
  import opened CommentService
  import CommentNotifications
  import Validation

  // ---------------------------------------------------------------------------
  // resolveSnippetId

  predicate StartsWithCode(s: string)
  {
    |s| >= 5 && s[..5] == "code-"
  }

  /** For a `code-N` block id: N - 1, read from the second `-`-separated piece when it is numeric. */
  function CodePosition(blockId: string): Option<int>
  {
    if !StartsWithCode(blockId) then None
    else
      var parts := Explode(blockId, '-');
      if |parts| >= 2 && IsIntegerString(parts[1]) then Some(IntegerValue(parts[1]) - 1) else None
  }

  /** The first snippet of a post in `block_index` order, if it has any. */
  function FirstSnippet(ordered: seq<Snippet>): (r: Option<nat>)
    ensures r.None? <==> ordered == []
    ensures r.Some? ==> r.value == ordered[0].id
  {
    if |ordered| > 0 then Some(ordered[0].id) else None
  }

  /**
   * `resolveSnippetId`: a numeric block id naming a snippet of this post; else `code-N`
   * naming the N-th snippet of the post in `block_index` order; else the post's first
   * snippet; else nothing. The result is null exactly when the post has no snippets.
   */
  function ResolveSnippetId(snippets: seq<Snippet>, blockId: string, postId: nat): (r: Option<nat>)
    ensures r.None? <==> SnippetsOfPost(snippets, postId) == []
    ensures r.Some? ==> exists s :: s in snippets && s.id == r.value && s.postId == postId
  {
    var byId := if IsIntegerString(blockId) then Lookup(snippets, SnippetId, IntegerValue(blockId)) else None;
    var ordered := SnippetsOfPost(snippets, postId);
    if byId.Some? && byId.value.postId == postId then
      assert byId.value in ordered;
      Some(byId.value.id)
    else
      var pos := CodePosition(blockId);
      if pos.Some? && 0 <= pos.value < |ordered| then
        assert ordered[pos.value] in ordered;
        Some(ordered[pos.value].id)
      else
        if |ordered| > 0 then assert ordered[0] in ordered; FirstSnippet(ordered) else None
  }

  /** A numeric block id naming a snippet of the same post resolves to that snippet. */
  lemma NumericOwnSnippet(snippets: seq<Snippet>, s: Snippet, blockId: string, postId: nat)
    requires UniqueIds(snippets, SnippetId) && s in snippets && s.postId == postId
    requires IsIntegerString(blockId) && IntegerValue(blockId) == s.id
    ensures ResolveSnippetId(snippets, blockId, postId) == Some(s.id)
  {
    FindUnique(snippets, SnippetId, s);
  }

  /**
   * A numeric block id that names no snippet of this post (a missing one, or one of another
   * post) falls back to the post's first snippet.
   */
  lemma NumericForeignFallsBack(snippets: seq<Snippet>, blockId: string, postId: nat)
    requires IsIntegerString(blockId)
    requires forall s :: s in snippets && s.id == IntegerValue(blockId) ==> s.postId != postId
    ensures ResolveSnippetId(snippets, blockId, postId) == FirstSnippet(SnippetsOfPost(snippets, postId))
  {
    assert IsDigit(blockId[0]) || blockId[0] == '-' || blockId[0] == '+';
    assert !StartsWithCode(blockId) by {
      if |blockId| >= 5 {
        assert blockId[..5][0] == blockId[0];
      }
    }
  }

  /**
   * `code-N` names element N-1 of the post's snippets in `block_index` order; `code-0` or
   * an N past the end falls back to the first snippet.
   */
  lemma {:induction false} CodeNResolves(snippets: seq<Snippet>, postId: nat, n: nat)
    ensures var ordered := SnippetsOfPost(snippets, postId);
      ResolveSnippetId(snippets, "code-" + NatToString(n), postId) ==
        if 1 <= n <= |ordered| then Some(ordered[n - 1].id) else FirstSnippet(ordered)
  {
    CodeNPosition(n);
  }

  /** `code-<n>` is not an integer id, and it names position `n - 1`. */
  lemma {:induction false} CodeNPosition(n: nat)
    ensures !IsIntegerString("code-" + NatToString(n))
    ensures CodePosition("code-" + NatToString(n)) == Some(n - 1)
  {
    var digits := NatToString(n);
    var blockId := "code-" + digits;
    assert !IsIntegerString(blockId) by {
      assert blockId[0] == 'c';
    }
    assert blockId[..5] == "code-";
    assert blockId == "code" + ['-'] + digits;
    ExplodeAfterPrefix("code", '-', digits);
    ExplodeWithoutSeparator(digits, '-');
    assert Explode(blockId, '-') == ["code", digits];
    NatToStringIsInteger(n);
  }

  // ---------------------------------------------------------------------------
  // getThreads

  /** One entry of the `messages` list (the author's name and avatar are not modelled). */
  datatype Message = Message(
    id: nat, userId: nat, body: string, createdAt: nat, editedAt: Option<nat>,
    lineNumber: Option<int>, parentId: Option<nat>)

  datatype Threads = Threads(messages: seq<Message>, resolved: bool)

  /**
   * `$c->start_line <= $line && $c->end_line >= $line` for a truthy `$line`: PHP compares a
   * null column as `false` against `true`, so a null start passes and a null end fails.
   */
  predicate Covers(c: Comment, line: int)
  {
    (c.startLine.None? || c.startLine.value <= line) && c.endLine.Some? && c.endLine.value >= line
  }

  /** The filter closure: inline, and covering the line itself or through its parent. */
  predicate PassesFilter(c: Comment, all: seq<Comment>, line: int)
  {
    c.isInline
    && (Covers(c, line)
        || (IsSet(c.parentId) && Find(all, CommentId, c.parentId.value).Some?
            && Covers(Find(all, CommentId, c.parentId.value).value, line)))
  }

  function Matching(all: seq<Comment>, line: int): (r: seq<Comment>)
    ensures forall c :: c in r <==> c in all && PassesFilter(c, all, line)
  {
    Filter(all, (c: Comment) => PassesFilter(c, all, line))
  }

  /** `whereNull('parent_id')`: the thread starters. */
  function ThreadStarters(cs: seq<Comment>): (r: seq<Comment>)
    ensures forall c :: c in r <==> c in cs && c.parentId.None?
  {
    Filter(cs, (c: Comment) => c.parentId.None?)
  }

  function ParentMessage(c: Comment): Message
  {
    Message(c.id, c.userId, c.body, c.createdAt, c.editedAt, c.startLine, None)
  }

  /** A reply's line is its own start line, or else its parent's. */
  function ReplyMessage(r: Comment, parent: Comment): Message
  {
    Message(r.id, r.userId, r.body, r.createdAt, r.editedAt, OrElse(r.startLine, parent.startLine), Some(parent.id))
  }

  function ReplyMessages(rs: seq<Comment>, parent: Comment): (ms: seq<Message>)
    ensures |ms| == |rs|
    ensures forall k :: 0 <= k < |rs| ==> ms[k] == ReplyMessage(rs[k], parent)
  {
    seq(|rs|, k requires 0 <= k < |rs| => ReplyMessage(rs[k], parent))
  }

  lemma ReplyMessagesSnoc(rs: seq<Comment>, x: Comment, parent: Comment)
    ensures ReplyMessages(rs + [x], parent) == ReplyMessages(rs, parent) + [ReplyMessage(x, parent)]
  {
    var a, b := ReplyMessages(rs + [x], parent), ReplyMessages(rs, parent) + [ReplyMessage(x, parent)];
    assert |a| == |b|;
    forall k | 0 <= k < |a| ensures a[k] == b[k] {
      if k < |rs| {
        assert (rs + [x])[k] == rs[k];
      }
    }
  }

  /** One thread: the starter, then every reply of its `replies` relation. */
  function Thread(parent: Comment, comments: seq<Comment>): seq<Message>
  {
    [ParentMessage(parent)] + ReplyMessages(Replies(comments, parent.id), parent)
  }

  /** The threads of the starters, one after another. */
  function Flatten(parents: seq<Comment>, comments: seq<Comment>): seq<Message>
  {
    FlatMap(parents, ThreadOf(comments))
  }

  function ThreadOf(comments: seq<Comment>): Comment -> seq<Message>
  {
    (p: Comment) => Thread(p, comments)
  }

  lemma FlattenMembers(parents: seq<Comment>, comments: seq<Comment>, m: Message)
    ensures m in Flatten(parents, comments) <==> exists p :: p in parents && m in Thread(p, comments)
  {
    FlatMapMembers(parents, ThreadOf(comments), m);
  }

  function MessageTime(m: Message): int { m.createdAt }

  /** The response of `getThreads`. */
  function ThreadsFor(snippets: seq<Snippet>, comments: seq<Comment>, postId: nat, blockId: string,
                      line: Option<int>): (t: Threads)
    ensures !t.resolved
    ensures !IsSet(line) || !IsSet(ResolveSnippetId(snippets, blockId, postId)) ==> t.messages == []
  {
    if !IsSet(line) then Threads([], false)
    else
      var snippetId := ResolveSnippetId(snippets, blockId, postId);
      if !IsSet(snippetId) then Threads([], false)
      else
        var starters := ThreadStarters(Matching(CommentsOfSnippet(comments, snippetId.value), line.value));
        Threads(SortBy(Flatten(starters, comments), MessageTime), false)
  }

  /** The starters behind a `getThreads` response for a resolved snippet. */
  function StartersFor(comments: seq<Comment>, snippetId: nat, line: int): seq<Comment>
  {
    ThreadStarters(Matching(CommentsOfSnippet(comments, snippetId), line))
  }

  lemma {:induction false} ThreadMembers(parent: Comment, comments: seq<Comment>, m: Message)
    ensures m in Thread(parent, comments) <==>
      m == ParentMessage(parent) || exists r :: r in Replies(comments, parent.id) && m == ReplyMessage(r, parent)
  {
    ReplyMessagesMembers(Replies(comments, parent.id), parent, m);
  }

  /** The reply messages of a list of replies are exactly one message per reply. */
  lemma ReplyMessagesMembers(rs: seq<Comment>, parent: Comment, m: Message)
    ensures m in ReplyMessages(rs, parent) <==> exists r :: r in rs && m == ReplyMessage(r, parent)
  {
    var ms := ReplyMessages(rs, parent);
    if m in ms {
      var k :| 0 <= k < |ms| && ms[k] == m;
      assert rs[k] in rs;
    }
    if exists r :: r in rs && m == ReplyMessage(r, parent) {
      var r :| r in rs && m == ReplyMessage(r, parent);
      var k :| 0 <= k < |rs| && rs[k] == r;
      assert ms[k] == m;
    }
  }

  /** An inline thread starter of the snippet that covers the line: what `getThreads` shows. */
  predicate ShownStarter(p: Comment, comments: seq<Comment>, snippetId: nat, line: int)
  {
    p in comments && p.snippetId == Some(snippetId) && p.isInline && p.parentId.None? && Covers(p, line)
  }

  /** `m` is the starter's own message, or the message of one of its replies. */
  predicate MessageOf(m: Message, p: Comment, comments: seq<Comment>)
  {
    m == ParentMessage(p) || exists r :: r in comments && r.parentId == Some(p.id) && m == ReplyMessage(r, p)
  }

  /**
   * Every message of a response comes from an inline thread starter of the resolved snippet
   * that covers the line, or from one of its replies.
   */
  lemma ThreadsSound(snippets: seq<Snippet>, comments: seq<Comment>, postId: nat, blockId: string,
                     line: int, snippetId: nat)
    requires line != 0 && ResolveSnippetId(snippets, blockId, postId) == Some(snippetId) && snippetId != 0
    ensures forall m :: m in ThreadsFor(snippets, comments, postId, blockId, Some(line)).messages ==>
      exists p :: ShownStarter(p, comments, snippetId, line) && MessageOf(m, p, comments)
  {
    var starters := StartersFor(comments, snippetId, line);
    var flat := Flatten(starters, comments);
    var ms := ThreadsFor(snippets, comments, postId, blockId, Some(line)).messages;
    assert multiset(ms) == multiset(flat);
    forall m | m in ms
      ensures exists p :: ShownStarter(p, comments, snippetId, line) && MessageOf(m, p, comments)
    {
      assert m in multiset(flat);
      FlattenMembers(starters, comments, m);
      var p :| p in starters && m in Thread(p, comments);
      ThreadMembers(p, comments, m);
      assert ShownStarter(p, comments, snippetId, line) && MessageOf(m, p, comments);
    }
  }

  /**
   * Conversely, every inline thread starter of the resolved snippet that covers the line
   * appears, and so does every one of its replies.
   */
  lemma ThreadsComplete(snippets: seq<Snippet>, comments: seq<Comment>, postId: nat, blockId: string,
                        line: int, snippetId: nat, p: Comment, r: Comment)
    requires line != 0 && ResolveSnippetId(snippets, blockId, postId) == Some(snippetId) && snippetId != 0
    requires ShownStarter(p, comments, snippetId, line)
    ensures ParentMessage(p) in ThreadsFor(snippets, comments, postId, blockId, Some(line)).messages
    ensures r in comments && r.parentId == Some(p.id) ==>
      ReplyMessage(r, p) in ThreadsFor(snippets, comments, postId, blockId, Some(line)).messages
  {
    var starters := StartersFor(comments, snippetId, line);
    var flat := Flatten(starters, comments);
    var ms := ThreadsFor(snippets, comments, postId, blockId, Some(line)).messages;
    assert multiset(ms) == multiset(flat);
    assert p in starters;
    ThreadMembers(p, comments, ParentMessage(p));
    FlattenMembers(starters, comments, ParentMessage(p));
    assert ParentMessage(p) in multiset(flat);
    if r in comments && r.parentId == Some(p.id) {
      assert r in Replies(comments, p.id);
      ThreadMembers(p, comments, ReplyMessage(r, p));
      FlattenMembers(starters, comments, ReplyMessage(r, p));
      assert ReplyMessage(r, p) in multiset(flat);
    }
  }

  /**
   * The messages are ordered by `created_at`, and messages with equal times keep the order
   * in which the threads were flattened (`usort` is stable).
   */
  lemma ThreadsOrdered(snippets: seq<Snippet>, comments: seq<Comment>, postId: nat, blockId: string,
                       line: int, snippetId: nat, time: int)
    requires line != 0 && ResolveSnippetId(snippets, blockId, postId) == Some(snippetId) && snippetId != 0
    ensures SortedBy(ThreadsFor(snippets, comments, postId, blockId, Some(line)).messages, MessageTime)
    ensures WithKey(ThreadsFor(snippets, comments, postId, blockId, Some(line)).messages, MessageTime, time) ==
      WithKey(Flatten(StartersFor(comments, snippetId, line), comments), MessageTime, time)
  {
    var flat := Flatten(StartersFor(comments, snippetId, line), comments);
    SortBySorted(flat, MessageTime);
    SortByStable(flat, MessageTime, time);
  }

  /** The inner loop of `getThreads`: push a starter's message, then its replies' messages. */
  method AppendThread(messages: seq<Message>, parent: Comment, replies: seq<Comment>) returns (r: seq<Message>)
    ensures r == messages + ([ParentMessage(parent)] + ReplyMessages(replies, parent))
  {
    r := messages + [ParentMessage(parent)];
    var j := 0;
    while j < |replies|
      invariant 0 <= j <= |replies|
      invariant r == messages + [ParentMessage(parent)] + ReplyMessages(replies[..j], parent)
    {
      assert replies[..j + 1] == replies[..j] + [replies[j]];
      ReplyMessagesSnoc(replies[..j], replies[j], parent);
      r := r + [ReplyMessage(replies[j], parent)];
      j := j + 1;
    }
    assert replies[..j] == replies;
    assert messages + [ParentMessage(parent)] + ReplyMessages(replies, parent)
      == messages + ([ParentMessage(parent)] + ReplyMessages(replies, parent));
  }

  /** The outer loop of `getThreads`: one thread per starter, in order. */
  method CollectThreads(parents: seq<Comment>, comments: seq<Comment>) returns (messages: seq<Message>)
    ensures messages == Flatten(parents, comments)
  {
    messages := [];
    var i := 0;
    while i < |parents|
      invariant 0 <= i <= |parents|
      invariant messages == Flatten(parents[..i], comments)
    {
      var replies := Replies(comments, parents[i].id);
      messages := AppendThread(messages, parents[i], replies);
      assert [ParentMessage(parents[i])] + ReplyMessages(replies, parents[i]) == Thread(parents[i], comments);
      assert parents[..i + 1] == parents[..i] + [parents[i]];
      FlatMapSnoc(parents[..i], parents[i], ThreadOf(comments));
      i := i + 1;
    }
    assert parents[..i] == parents;
  }

  /** `CommentController::getThreads`: filter, flatten thread by thread, then sort. */
  method GetThreads(db: Db, postId: nat, blockId: string, line: Option<int>) returns (t: Threads)
    ensures t == ThreadsFor(db.snippets, db.comments, postId, blockId, line)
  {
    if !IsSet(line) {
      return Threads([], false);
    }
    var snippetId := ResolveSnippetId(db.snippets, blockId, postId);
    if !IsSet(snippetId) {
      return Threads([], false);
    }
    var parents := StartersFor(db.comments, snippetId.value, line.value);
    var messages := CollectThreads(parents, db.comments);
    return Threads(SortBy(messages, MessageTime), false);
  }

  // ---------------------------------------------------------------------------
  // storeThread and storeInlineComment

  /** Why a controller refuses before or around the service call. */
  datatype WebError = ValidationFailed | BlockNotFound | StartAfterEnd | Failed(error: CommentError)

  /** The `storeThread` input: `line`, `content`, `parent_id`. */
  datatype ThreadRequest = ThreadRequest(line: Option<int>, content: Option<string>, parentId: Option<int>)

  /**
   * `line` required integer >= 1; `content` required string of at most 5000, where `required`
   * refuses a string that trims to `''`; `parent_id` null or a comment.
   */
  predicate ThreadRequestValid(req: ThreadRequest, comments: seq<Comment>)
  {
    req.line.Some? && req.line.value >= 1
    && req.content.Some? && !Validation.Blank(req.content.value) && |req.content.value| <= 5000
    && (req.parentId.None? || Lookup(comments, CommentId, req.parentId.value).Some?)
  }

  /** The `$commentData` of `storeThread`: an inline comment on exactly the requested line. */
  function ThreadData(postId: nat, snippetId: nat, req: ThreadRequest): CommentData
    requires req.line.Some? && req.content.Some?
  {
    CommentData(Some(true), Some(postId), Some(snippetId), req.parentId, req.line, req.line, req.content.value)
  }

  /**
   * A thread comment that is stored is inline, on the resolved snippet and the route's post,
   * starts and ends on the requested line, and carries the content and parent given.
   */
  lemma ThreadCommentShape(users: seq<User>, posts: seq<Post>, snippets: seq<Snippet>, comments: seq<Comment>,
                           postId: nat, snippetId: nat, req: ThreadRequest, userId: nat, id: nat, now: nat)
    requires postId != 0 && snippetId != 0 && ThreadRequestValid(req, comments)
    requires CreateResult(users, posts, snippets, comments, ThreadData(postId, snippetId, req), userId, id, now).Ok?
    ensures var c := CreateResult(users, posts, snippets, comments, ThreadData(postId, snippetId, req), userId, id, now).value;
      c.isInline && c.startLine == req.line && c.endLine == req.line
      && c.snippetId == Some(snippetId) && c.postId == Some(postId) && c.body == req.content.value
      && !Validation.Blank(c.body)
      && (req.parentId.None? ==> c.parentId.None?)
      && (req.parentId.Some? ==> c.parentId.Some? && c.parentId.value == req.parentId.value)
  {
    CommittedHasSnippet(users, posts, snippets, comments, ThreadData(postId, snippetId, req), userId, id, now);
    StoredRecord(posts, snippets, comments, ThreadData(postId, snippetId, req), userId, id, now);
  }

  /** `CommentController::storeThread`. */
  method StoreThread(db: Db, postId: nat, blockId: string, req: ThreadRequest, userId: nat, now: nat)
    returns (r: Result<Comment, WebError>)
    requires db.Valid()
    modifies db`comments, db`notifications, db`nextId
    ensures db.Valid()
    ensures !ThreadRequestValid(req, old(db.comments)) ==> r == Err(ValidationFailed)
    ensures ThreadRequestValid(req, old(db.comments)) && !IsSet(ResolveSnippetId(old(db.snippets), blockId, postId))
      ==> r == Err(BlockNotFound)
    ensures ThreadRequestValid(req, old(db.comments)) && IsSet(ResolveSnippetId(old(db.snippets), blockId, postId)) ==>
      var out := CreateResult(old(db.users), old(db.posts), old(db.snippets), old(db.comments),
        ThreadData(postId, ResolveSnippetId(old(db.snippets), blockId, postId).value, req), userId, old(db.nextId), now);
      r == (if out.Ok? then Ok(out.value) else Err(Failed(out.error)))
    ensures r.Ok? ==> db.comments == old(db.comments) + [r.value]
    ensures r.Ok? ==> req.content.Some? && r.value.body == req.content.value && !Validation.Blank(r.value.body)
    ensures r.Err? ==> db.comments == old(db.comments) && db.notifications == old(db.notifications)
  {
    if !ThreadRequestValid(req, db.comments) {
      return Err(ValidationFailed);
    }
    var snippetId := ResolveSnippetId(db.snippets, blockId, postId);
    if !IsSet(snippetId) {
      return Err(BlockNotFound);
    }
    var commentData := ThreadData(postId, snippetId.value, req);
    var out := CreateComment(db, commentData, userId, now);
    r := if out.Ok? then Ok(out.value) else Err(Failed(out.error));
  }

  /** The `storeInlineComment` input (the route supplies `post_id`; `is_inline` is forced true). */
  datatype InlineRequest = InlineRequest(snippetId: Option<int>, startLine: Option<int>, endLine: Option<int>,
                                         body: Option<string>)

  /** The inline rule table of `storeInlineComment`; `required` refuses a blank `body`. */
  predicate InlineRequestValid(postId: nat, req: InlineRequest, posts: seq<Post>, snippets: seq<Snippet>)
  {
    Lookup(posts, PostId, postId).Some?
    && (req.snippetId.None? || Lookup(snippets, SnippetId, req.snippetId.value).Some?)
    && req.startLine.Some? && req.startLine.value >= 1
    && req.endLine.Some? && req.endLine.value >= 1
    && req.body.Some? && !Validation.Blank(req.body.value) && |req.body.value| <= 5000
  }

  /** `$validated`: only keys with a rule survive, so no `parent_id` reaches the service. */
  function InlineData(postId: nat, req: InlineRequest): CommentData
    requires req.body.Some?
  {
    CommentData(Some(true), Some(postId), req.snippetId, None, req.startLine, req.endLine, req.body.value)
  }

  /**
   * An inline comment without a snippet skips the service's range check, so the guards
   * accept any ordered pair of lines on an existing post; yet nothing is stored, because
   * the listener throws on the missing snippet and the insert is rolled back.
   */
  lemma InlineWithoutSnippetRollsBack(users: seq<User>, posts: seq<Post>, snippets: seq<Snippet>,
                                      comments: seq<Comment>, postId: nat, req: InlineRequest,
                                      userId: nat, id: nat, now: nat)
    requires postId != 0 && InlineRequestValid(postId, req, posts, snippets) && req.snippetId.None?
    ensures CreateOutcome(posts, snippets, comments, InlineData(postId, req), userId, id, now).Ok?
    ensures CreateOutcome(posts, snippets, comments, InlineData(postId, req), userId, id, now).value.startLine == req.startLine
    ensures CreateResult(users, posts, snippets, comments, InlineData(postId, req), userId, id, now)
      == Err(ListenerFailed(CommentNotifications.NoSnippet))
  {
    SnippetlessRollsBack(users, posts, snippets, comments, InlineData(postId, req), userId, id, now);
  }

  /** `CommentController::storeInlineComment`. */
  method StoreInlineComment(db: Db, postId: nat, req: InlineRequest, userId: nat, now: nat)
    returns (r: Result<Comment, WebError>)
    requires db.Valid()
    modifies db`comments, db`notifications, db`nextId
    ensures db.Valid()
    ensures !InlineRequestValid(postId, req, old(db.posts), old(db.snippets)) ==> r == Err(ValidationFailed)
    ensures InlineRequestValid(postId, req, old(db.posts), old(db.snippets)) && req.startLine.value > req.endLine.value
      ==> r == Err(StartAfterEnd)
    ensures InlineRequestValid(postId, req, old(db.posts), old(db.snippets)) && req.startLine.value <= req.endLine.value ==>
      var out := CreateResult(old(db.users), old(db.posts), old(db.snippets), old(db.comments), InlineData(postId, req),
                              userId, old(db.nextId), now);
      r == (if out.Ok? then Ok(out.value) else Err(Failed(out.error)))
    ensures r.Ok? ==> db.comments == old(db.comments) + [r.value]
    ensures r.Ok? ==> req.body.Some? && r.value.body == req.body.value && !Validation.Blank(r.value.body)
    ensures r.Err? ==> db.comments == old(db.comments) && db.notifications == old(db.notifications)
  {
    if !InlineRequestValid(postId, req, db.posts, db.snippets) {
      return Err(ValidationFailed);
    }
    if req.startLine.value > req.endLine.value {
      return Err(StartAfterEnd);
    }
    var out := CreateComment(db, InlineData(postId, req), userId, now);
    r := if out.Ok? then Ok(out.value) else Err(Failed(out.error));
  }
}
