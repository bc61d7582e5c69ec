/**
 * `CommentCreatedBroadcast`: the private channel a new comment is pushed on, the event
 * name, and the payload the listeners receive.
 */
module CommentBroadcast {
  import opened Common
  import opened Records

  /** `new PrivateChannel(name)`. */
  datatype Channel = PrivateChannel(name: string)

  const EventName: string := "comment.created"

  /** `broadcastAs`. */
  function BroadcastAs(): (name: string)
    ensures name == EventName && |name| == 15
  {
    EventName
  }

  /** The channel of one post: `post.{id}`. */
  function PostChannel(postId: nat): (c: Channel)
    ensures |c.name| > 5 && c.name[..5] == "post." && c.name[5..] == NatToString(postId)
  {
    PrivateChannel("post." + NatToString(postId))
  }

  /** Different posts have different channels. */
  lemma PostChannelInjective(a: nat, b: nat)
    requires PostChannel(a) == PostChannel(b)
    ensures a == b
  {
    assert PostChannel(a).name[5..] == PostChannel(b).name[5..];
    NatToStringInjective(a, b);
  }

  /**
   * The post a comment belongs to: its own post_id, else its snippet's post_id (the chain
   * is null-safe under `??`); a falsy id counts as none.
   */
  function BroadcastPost(comment: Comment, snippet: Option<Snippet>): (r: Option<nat>)
    ensures r.Some? ==> r.value != 0
    ensures comment.postId.Some? && comment.postId.value != 0 ==> r == comment.postId
    ensures comment.postId.None? && snippet.Some? && snippet.value.postId != 0 ==> r == Some(snippet.value.postId)
    ensures r.None? <==>
      (comment.postId.Some? && comment.postId.value == 0)
      || (comment.postId.None? && (snippet.None? || snippet.value.postId == 0))
  {
    var postId := if comment.postId.Some? then comment.postId
                  else if snippet.Some? then Some(snippet.value.postId)
                  else None;
    if postId.Some? && postId.value != 0 then postId else None
  }

  /** `broadcastOn`: the post's channel, or no channel at all. */
  function BroadcastOn(comment: Comment, snippet: Option<Snippet>): (channels: seq<Channel>)
    ensures |channels| <= 1
    ensures channels == [] <==> BroadcastPost(comment, snippet).None?
    ensures channels != [] ==> channels[0] == PostChannel(BroadcastPost(comment, snippet).value)
  {
    var postId := BroadcastPost(comment, snippet);
    if postId.None? then [] else [PostChannel(postId.value)]
  }

  /**
   * Every comment of a post, inline or not, reaches the same channel as long as it records
   * that post or hangs off one of that post's snippets.
   */
  lemma SamePostSameChannel(c1: Comment, s1: Option<Snippet>, c2: Comment, s2: Option<Snippet>, postId: nat)
    requires postId != 0
    requires c1.postId == Some(postId) || (c1.postId.None? && s1.Some? && s1.value.postId == postId)
    requires c2.postId == Some(postId) || (c2.postId.None? && s2.Some? && s2.value.postId == postId)
    ensures BroadcastOn(c1, s1) == BroadcastOn(c2, s2) == [PostChannel(postId)]
  {
  }

  datatype Author = Author(id: nat, name: string)
  datatype SnippetSummary = SnippetSummary(id: nat, language: string)

  /** The `comment` object of `broadcastWith` (the ISO-8601 timestamp is not modelled). */
  datatype CommentPayload = CommentPayload(
    id: nat, userId: nat, postId: Option<nat>, snippetId: Option<nat>, parentId: Option<nat>,
    isInline: bool, startLine: Option<int>, endLine: Option<int>, body: string,
    user: Author, snippet: Option<SnippetSummary>)

  /** `broadcastWith`: the comment's columns, its author, and a summary of its snippet if loaded. */
  function BroadcastWith(comment: Comment, user: User, snippet: Option<Snippet>): (p: CommentPayload)
    requires user.id == comment.userId
    ensures p.id == comment.id && p.userId == comment.userId && p.user.id == comment.userId
    ensures p.postId == comment.postId && p.snippetId == comment.snippetId && p.parentId == comment.parentId
    ensures p.isInline == comment.isInline && p.startLine == comment.startLine && p.endLine == comment.endLine
    ensures p.body == comment.body && p.user.name == user.name
    ensures p.snippet.None? <==> snippet.None?
    ensures snippet.Some? ==> p.snippet.value.id == snippet.value.id && p.snippet.value.language == snippet.value.language
  {
    CommentPayload(
      comment.id, comment.userId, comment.postId, comment.snippetId, comment.parentId,
      comment.isInline, comment.startLine, comment.endLine, comment.body,
      Author(user.id, user.name),
      if snippet.Some? then Some(SnippetSummary(snippet.value.id, snippet.value.language)) else None)
  }

  /** `$comment->load('snippet')`: the snippet row named by snippet_id, if any. */
  function LoadSnippet(snippets: seq<Snippet>, comment: Comment): (r: Option<Snippet>)
    ensures r.Some? ==> comment.snippetId == Some(r.value.id) && r.value in snippets
    ensures r.None? ==> comment.snippetId.None? || comment.snippetId.value !in Ids(snippets, SnippetId)
  {
    if comment.snippetId.Some? then Find(snippets, SnippetId, comment.snippetId.value) else None
  }
}
