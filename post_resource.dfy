/**
 * `PostResource::toArray`: the inline comment index `{ snippet id: { start line: count } }`
 * built from the relations that happen to be loaded on the post.
 */
module PostResource {
  import opened Common
  import opened Records

  /** A comment as loaded, with its `replies` relation when that was loaded. */
  datatype LoadedComment = LoadedComment(comment: Comment, replies: Option<seq<Comment>>)

  /** A snippet as loaded, with `allComments` and `comments` when those were loaded. */
  datatype LoadedSnippet = LoadedSnippet(snippet: Snippet, allComments: Option<seq<LoadedComment>>,
                                         comments: Option<seq<LoadedComment>>)

  /** A post as loaded, with `snippets` when that was loaded. */
  datatype LoadedPost = LoadedPost(post: Post, snippets: Option<seq<LoadedSnippet>>)

  type LineCounts = map<string, nat>
  type InlineIndex = map<string, LineCounts>

  /** The comment source: `allComments` if loaded, else `comments` if loaded, else nothing. */
  function SourceOf(s: LoadedSnippet): (cs: seq<LoadedComment>)
    ensures s.allComments.Some? ==> cs == s.allComments.value
    ensures s.allComments.None? && s.comments.Some? ==> cs == s.comments.value
    ensures s.allComments.None? && s.comments.None? ==> cs == []
  {
    if s.allComments.Some? then s.allComments.value
    else if s.comments.Some? then s.comments.value
    else []
  }

  /** Only inline comments with a truthy start line are counted. */
  predicate Counted(c: LoadedComment)
  {
    c.comment.isInline && IsSet(c.comment.startLine)
  }

  /** What a counted comment adds: itself, plus its replies when they are loaded. */
  function Contribution(c: LoadedComment): nat
  {
    1 + (if c.replies.Some? then |c.replies.value| else 0)
  }

  function LineKey(c: LoadedComment): string
    requires Counted(c)
  {
    IntToString(c.comment.startLine.value)
  }

  function AddAt(m: LineCounts, key: string, amount: nat): LineCounts
  {
    m[key := (if key in m then m[key] else 0) + amount]
  }

  /** The per-line map of one snippet, comment by comment. */
  function LineTotals(cs: seq<LoadedComment>): LineCounts
  {
    if cs == [] then map[]
    else
      var last := cs[|cs| - 1];
      var m := LineTotals(cs[..|cs| - 1]);
      if Counted(last) then AddAt(m, LineKey(last), Contribution(last)) else m
  }

  /** The independent count: the contributions of the counted comments starting on `line`. */
  function Total(cs: seq<LoadedComment>, line: int): nat
  {
    if cs == [] then 0
    else
      var last := cs[|cs| - 1];
      Total(cs[..|cs| - 1], line)
        + (if Counted(last) && last.comment.startLine.value == line then Contribution(last) else 0)
  }

  /** The index entries of the snippets, one after another (a later entry for the same key wins). */
  function SnippetEntries(ss: seq<LoadedSnippet>): InlineIndex
  {
    if ss == [] then map[]
    else
      var last := ss[|ss| - 1];
      SnippetEntries(ss[..|ss| - 1])[NatToString(last.snippet.id) := LineTotals(SourceOf(last))]
  }

  /** The `$inlineIndex` of `toArray`. */
  function Index(p: LoadedPost): InlineIndex
  {
    if p.snippets.Some? then SnippetEntries(p.snippets.value) else map[]
  }

  /**
   * A line has an entry exactly when some counted comment starts on it, and the entry is
   * the sum of their contributions; every key is the string of such a line. The end line
   * plays no part.
   */
  lemma {:induction false} LineTotalsCount(cs: seq<LoadedComment>, line: int)
    ensures IntToString(line) in LineTotals(cs) <==>
      exists c :: c in cs && Counted(c) && c.comment.startLine.value == line
    ensures IntToString(line) in LineTotals(cs) ==> LineTotals(cs)[IntToString(line)] == Total(cs, line)
    ensures !(IntToString(line) in LineTotals(cs)) ==> Total(cs, line) == 0
    decreases |cs|
  {
    if cs != [] {
      var init, last := cs[..|cs| - 1], cs[|cs| - 1];
      LineTotalsCount(init, line);
      assert cs == init + [last];
      if Counted(last) && IntToString(last.comment.startLine.value) == IntToString(line) {
        IntToStringInjective(last.comment.startLine.value, line);
      }
      if exists c :: c in cs && Counted(c) && c.comment.startLine.value == line {
        var c :| c in cs && Counted(c) && c.comment.startLine.value == line;
        if c != last {
          assert c in init;
        }
      }
    }
  }

  /** Every key of a snippet's map is the start line of a counted comment. */
  lemma {:induction false} LineTotalsKeys(cs: seq<LoadedComment>, key: string)
    requires key in LineTotals(cs)
    ensures exists c :: c in cs && Counted(c) && key == IntToString(c.comment.startLine.value)
    decreases |cs|
  {
    var init, last := cs[..|cs| - 1], cs[|cs| - 1];
    assert last in cs;
    if !(Counted(last) && key == LineKey(last)) {
      LineTotalsKeys(init, key);
      var c :| c in init && Counted(c) && key == IntToString(c.comment.startLine.value);
      assert c in cs;
    }
  }

  /** Loaded snippets come from the snippets table, so no two share an id. */
  ghost predicate DistinctSnippets(ss: seq<LoadedSnippet>)
  {
    forall s, t :: s in ss && t in ss && s.snippet.id == t.snippet.id ==> s == t
  }

  /**
   * With distinct loaded snippets, every snippet has an entry keyed by its id as a string,
   * even one without comments, holding its own line totals.
   */
  lemma {:induction false} SnippetEntryOf(ss: seq<LoadedSnippet>, s: LoadedSnippet)
    requires DistinctSnippets(ss) && s in ss
    ensures NatToString(s.snippet.id) in SnippetEntries(ss)
    ensures SnippetEntries(ss)[NatToString(s.snippet.id)] == LineTotals(SourceOf(s))
    decreases |ss|
  {
    var init, last := ss[..|ss| - 1], ss[|ss| - 1];
    assert ss == init + [last];
    if s != last {
      if NatToString(s.snippet.id) == NatToString(last.snippet.id) {
        NatToStringInjective(s.snippet.id, last.snippet.id);
        assert false;
      }
      SnippetEntryOf(init, s);
    }
  }

  /** The index has no keys other than the loaded snippets' ids. */
  lemma {:induction false} SnippetEntriesKeys(ss: seq<LoadedSnippet>, key: string)
    requires key in SnippetEntries(ss)
    ensures exists s :: s in ss && key == NatToString(s.snippet.id)
    decreases |ss|
  {
    var init, last := ss[..|ss| - 1], ss[|ss| - 1];
    assert last in ss;
    if key != NatToString(last.snippet.id) {
      SnippetEntriesKeys(init, key);
      var s :| s in init && key == NatToString(s.snippet.id);
      assert s in ss;
    }
  }

  /** Without the `snippets` relation the index is empty. */
  lemma IndexWithoutSnippets(p: LoadedPost)
    requires p.snippets.None?
    ensures Index(p) == map[]
  {
  }

  /**
   * No deduplication: an inline reply that is loaded both as its own row and among its
   * parent's replies is counted twice on a line where both start.
   */
  lemma ReplyCountedTwice(parent: Comment, reply: Comment, line: int)
    requires parent.isInline && reply.isInline && line != 0
    requires parent.startLine == Some(line) && reply.startLine == Some(line)
    ensures var cs := [LoadedComment(parent, Some([reply])), LoadedComment(reply, None)];
      LineTotals(cs)[IntToString(line)] == 3
  {
    var cs := [LoadedComment(parent, Some([reply])), LoadedComment(reply, None)];
    var key := IntToString(line);
    assert cs[..1] == [cs[0]];
    assert cs[..1][..0] == [];
    assert LineTotals(cs[..1]) == map[key := 2];
    assert LineTotals(cs) == AddAt(map[key := 2], key, 1);
  }

  /** The two index fields of the resource. */
  datatype IndexFields = IndexFields(inlineIndex: InlineIndex, inlineCommentsIndex: InlineIndex)

  /** The line map of one snippet: `foreach ($snippetComments as $comment)`. */
  method CountLines(cs: seq<LoadedComment>) returns (lines: LineCounts)
    ensures lines == LineTotals(cs)
  {
    lines := map[];
    var j := 0;
    while j < |cs|
      invariant 0 <= j <= |cs|
      invariant lines == LineTotals(cs[..j])
    {
      var comment := cs[j];
      if comment.comment.isInline && IsSet(comment.comment.startLine) {
        var lineNum := IntToString(comment.comment.startLine.value);
        if lineNum !in lines {
          lines := lines[lineNum := 0];
        }
        lines := lines[lineNum := lines[lineNum] + 1];
        if comment.replies.Some? {
          lines := lines[lineNum := lines[lineNum] + |comment.replies.value|];
        }
      }
      assert cs[..j + 1][..j] == cs[..j];
      j := j + 1;
    }
    assert cs[..j] == cs;
  }

  /** `PostResource::toArray`, the index part: both fields carry the same map. */
  method ToArray(p: LoadedPost) returns (r: IndexFields)
    ensures r.inlineIndex == Index(p) && r.inlineCommentsIndex == Index(p)
  {
    var inlineIndex: InlineIndex := map[];
    if p.snippets.Some? {
      var ss := p.snippets.value;
      var i := 0;
      while i < |ss|
        invariant 0 <= i <= |ss|
        invariant inlineIndex == SnippetEntries(ss[..i])
      {
        var snippet := ss[i];
        var snippetComments := SourceOf(snippet);
        var blockId := NatToString(snippet.snippet.id);
        var lines := CountLines(snippetComments);
        inlineIndex := inlineIndex[blockId := lines];
        assert ss[..i + 1][..i] == ss[..i];
        i := i + 1;
      }
      assert ss[..i] == ss;
    }
    return IndexFields(inlineIndex, inlineIndex);
  }
}
