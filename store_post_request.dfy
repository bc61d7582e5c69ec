/**
 * `StorePostRequest::rules`: a title, a non-empty body of text and code blocks (code blocks
 * naming their language), optional short string tags, an optional visibility and an
 * optional meta array; and the typed post data a passing request yields.
 */
module StorePostRequest {
  import opened Common
  import opened Records
  import opened Validation

  const BlockTypes: set<string> := {"text", "code"}
  const Visibilities: set<string> := {"public", "private", "unlisted"}

  /** The validated fields. */
  datatype PostInput = PostInput(
    title: string, body: seq<Block>, tags: seq<string>, visibility: Option<string>, meta: Option<Value>)

  /** `title`: `['required', 'string', 'max:255']`. */
  predicate TitlePasses(v: Option<Value>)
  {
    Required(v) && StringMax(v.value, 255)
  }

  /** `body.*.language`: `['required_if:body.*.type,code', 'string', 'nullable']`. */
  predicate LanguagePasses(block: Value)
  {
    (Field(block, "type") == Some(Str("code")) ==> Required(Field(block, "language")))
    && Optional(Field(block, "language"), (x: Value) => x.Str?)
  }

  /** The `body.*` rules on one block: `type` (`required`, `string`, `in:text,code`), `content` (`required`, `string`), language. */
  predicate BlockPasses(block: Value)
  {
    Required(Field(block, "type")) && StringIn(Field(block, "type").value, BlockTypes)
    && Required(Field(block, "content")) && Field(block, "content").value.Str?
    && LanguagePasses(block)
  }

  /** `body`: `['required', 'array']`, then the block rules on each element. */
  predicate BodyPasses(v: Option<Value>)
  {
    Required(v) && v.value.Arr?
    && forall i :: 0 <= i < |v.value.entries| ==> BlockPasses(v.value.entries[i].1)
  }

  /** `tags.*`: `['string', 'max:50']`, skipped for a blank string. */
  predicate TagPasses(tag: Value)
  {
    Checked(Some(tag), (x: Value) => StringMax(x, 50))
  }

  /** `tags`: `['nullable', 'array']`, each element `['string', 'max:50']`. */
  predicate TagsPasses(v: Option<Value>)
  {
    Optional(v, (x: Value) => x.Arr? && forall i :: 0 <= i < |x.entries| ==> TagPasses(x.entries[i].1))
  }

  /** `visibility`: `['nullable', 'string', 'in:public,private,unlisted']`. */
  predicate VisibilityPasses(v: Option<Value>)
  {
    Optional(v, (x: Value) => StringIn(x, Visibilities))
  }

  /** `meta`: `['nullable', 'array']`. */
  predicate MetaPasses(v: Option<Value>)
  {
    Optional(v, (x: Value) => x.Arr?)
  }

  /** The whole rule table. */
  predicate Passes(input: Input)
  {
    TitlePasses(Get(input, "title"))
    && BodyPasses(Get(input, "body"))
    && TagsPasses(Get(input, "tags"))
    && VisibilityPasses(Get(input, "visibility"))
    && MetaPasses(Get(input, "meta"))
  }


  function BlockOf(block: Value): (b: Block)
    requires BlockPasses(block)
    ensures b.blockType in BlockTypes && !Blank(b.content)
    ensures b.blockType == "code" ==> b.language.Some?
  {
    var language := Present(Field(block, "language"));
    Block(Field(block, "type").value.s, Field(block, "content").value.s,
          if language.Some? then Some(language.value.s) else None)
  }

  function StringsOf(v: Value): (r: seq<string>)
    requires v.Arr? && forall i :: 0 <= i < |v.entries| ==> TagPasses(v.entries[i].1)
    ensures |r| == |v.entries|
    ensures forall i :: 0 <= i < |r| ==> Str(r[i]) == v.entries[i].1 && (|r[i]| <= 50 || Blank(r[i]))
  {
    seq(|v.entries|, i requires 0 <= i < |v.entries| && TagPasses(v.entries[i].1) => v.entries[i].1.s)
  }

  /** `$request->validated()`: the typed fields, exactly when every rule passes. */
  function Validated(input: Input): (r: Option<PostInput>)
    ensures r.Some? <==> Passes(input)
    ensures r.Some? ==> |r.value.title| <= 255 && !Blank(r.value.title)
    ensures r.Some? ==> |r.value.body| >= 1 && |r.value.body| == |Items(input["body"])|
    ensures r.Some? ==> forall b :: b in r.value.body ==>
      b.blockType in BlockTypes && !Blank(b.content) && (b.blockType == "code" ==> b.language.Some?)
    ensures r.Some? ==> forall t :: t in r.value.tags ==> |t| <= 50 || Blank(t)
    ensures r.Some? ==> r.value.visibility.None? || r.value.visibility.value in Visibilities
  {
    if !Passes(input) then None
    else
      var body := input["body"];
      var tags := Present(Get(input, "tags"));
      var visibility := Present(Get(input, "visibility"));
      Some(PostInput(
        input["title"].s,
        seq(|body.entries|, i requires 0 <= i < |body.entries| && BlockPasses(body.entries[i].1) =>
          BlockOf(body.entries[i].1)),
        if tags.Some? then StringsOf(tags.value) else [],
        if visibility.Some? then Some(visibility.value.s) else None,
        Present(Get(input, "meta"))))
  }

  /**
   * A `tags`, `visibility` or `meta` field that trims to `''` is taken as absent: its rules
   * do not run and it contributes nothing to the validated data.
   */
  lemma BlankOptionalIsAbsent(input: Input, key: string, s: string)
    requires key == "tags" || key == "visibility" || key == "meta"
    requires Blank(s)
    ensures Passes(input[key := Str(s)]) == Passes(input - {key})
    ensures Validated(input[key := Str(s)]) == Validated(input - {key})
  {
    var blank, absent := input[key := Str(s)], input - {key};
    assert |"title"| == 5 && |"body"| == 4 && |"tags"| == 4 && |"visibility"| == 10 && |"meta"| == 4;
    assert "tags" != "body" && "meta" != "body" && "tags" != "meta" by {
      assert "tags"[0] != "body"[0] && "meta"[0] != "body"[0] && "tags"[0] != "meta"[0];
    }
    assert Get(blank, "title") == Get(absent, "title") && Get(blank, "body") == Get(absent, "body");
    assert forall k :: k != key ==> Get(blank, k) == Get(absent, k);
    assert !RulesRun(Get(blank, key)) && Get(absent, key).None?;
    assert Present(Get(blank, key)) == Present(Get(absent, key));
    assert Passes(blank) == Passes(absent) by {
      assert TagsPasses(Get(blank, "tags")) == TagsPasses(Get(absent, "tags"));
      assert VisibilityPasses(Get(blank, "visibility")) == VisibilityPasses(Get(absent, "visibility"));
      assert MetaPasses(Get(blank, "meta")) == MetaPasses(Get(absent, "meta"));
    }
    if Passes(blank) {
      assert blank["title"] == absent["title"] && blank["body"] == absent["body"];
      assert Present(Get(blank, "tags")) == Present(Get(absent, "tags"));
      assert Present(Get(blank, "visibility")) == Present(Get(absent, "visibility"));
      assert Present(Get(blank, "meta")) == Present(Get(absent, "meta"));
    }
  }

  /** A body without blocks fails `required`, so every stored post has at least one block. */
  lemma EmptyBodyRejected(input: Input)
    requires "body" in input && input["body"] == Arr([])
    ensures !Passes(input) && Validated(input).None?
  {
  }

  /** A code block with a null language is rejected; a text block may leave it null. */
  lemma CodeNeedsLanguage(content: string)
    requires !Blank(content)
    ensures !BlockPasses(Arr([("type", Str("code")), ("content", Str(content)), ("language", Null)]))
    ensures BlockPasses(Arr([("type", Str("text")), ("content", Str(content)), ("language", Null)]))
  {
    var code := Arr([("type", Str("code")), ("content", Str(content)), ("language", Null)]);
    var text := Arr([("type", Str("text")), ("content", Str(content)), ("language", Null)]);
    assert |"type"| == 4 && |"content"| == 7 && |"language"| == 8;
    assert code.entries[1..] == [("content", Str(content)), ("language", Null)];
    assert text.entries[1..] == [("content", Str(content)), ("language", Null)];
    assert code.entries[1..][1..] == [("language", Null)];
    assert text.entries[1..][1..] == [("language", Null)];
    assert Entry(text.entries[1..], "content") == Some(Str(content));
    assert Entry(text.entries, "content") == Entry(text.entries[1..], "content");
    assert Entry(code.entries[1..][1..], "language") == Some(Null);
    assert Entry(code.entries[1..], "language") == Entry(code.entries[1..][1..], "language");
    assert Entry(code.entries, "language") == Entry(code.entries[1..], "language");
    assert Field(code, "type") == Some(Str("code"));
    assert Field(code, "language") == Some(Null);
    assert Field(text, "type") == Some(Str("text"));
    assert Field(text, "content") == Some(Str(content));
    assert Field(text, "language") == Some(Null);
    assert !Blank("text") by { assert !TrimmedChar("text"[0]); }
  }
}
