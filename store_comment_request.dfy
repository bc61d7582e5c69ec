/**
 * `StoreCommentRequest::rules`: the input an inline comment must carry, and the typed
 * comment data a passing request yields.
 */
module StoreCommentRequest {
  import opened Common
  import opened Validation

  /** The validated fields. */
  datatype CommentInput = CommentInput(
    snippetId: nat, parentId: Option<nat>, startLine: int, endLine: int, body: string)

  /** `['required', 'integer', 'exists:snippets,id']`. */
  predicate SnippetIdPasses(v: Option<Value>, snippetIds: set<nat>)
  {
    Required(v) && IntegerExists(v.value, snippetIds)
  }

  /** `['nullable', 'integer', 'exists:comments,id']`. */
  predicate ParentIdPasses(v: Option<Value>, commentIds: set<nat>)
  {
    Optional(v, (x: Value) => IntegerExists(x, commentIds))
  }

  /** `['required', 'integer', 'min:1']`. */
  predicate LinePasses(v: Option<Value>)
  {
    Required(v) && IsInteger(v.value) && MinInt(v.value, 1)
  }

  /** `['required', 'string', 'max:5000']`. */
  predicate BodyPasses(v: Option<Value>)
  {
    Required(v) && StringMax(v.value, 5000)
  }

  /** The whole rule table. */
  predicate Passes(input: Input, snippetIds: set<nat>, commentIds: set<nat>)
  {
    SnippetIdPasses(Get(input, "snippet_id"), snippetIds)
    && ParentIdPasses(Get(input, "parent_id"), commentIds)
    && LinePasses(Get(input, "start_line"))
    && LinePasses(Get(input, "end_line"))
    && BodyPasses(Get(input, "body"))
  }

  /** `$request->validated()`: the typed fields, exactly when every rule passes. */
  function Validated(input: Input, snippetIds: set<nat>, commentIds: set<nat>): (r: Option<CommentInput>)
    ensures r.Some? <==> Passes(input, snippetIds, commentIds)
    ensures r.Some? ==> r.value.snippetId in snippetIds
    ensures r.Some? ==> r.value.parentId.None? || r.value.parentId.value in commentIds
    ensures r.Some? ==> r.value.startLine >= 1 && r.value.endLine >= 1
    ensures r.Some? ==> 1 <= |r.value.body| <= 5000 && !Blank(r.value.body)
  {
    if !Passes(input, snippetIds, commentIds) then None
    else
      var parent := Get(input, "parent_id");
      Some(CommentInput(
        IntValue(input["snippet_id"]) as nat,
        if Present(parent).None? then None else Some(IntValue(parent.value) as nat),
        IntValue(input["start_line"]),
        IntValue(input["end_line"]),
        input["body"].s))
  }

  /** A `parent_id` that trims to `''` is taken as absent: its rules do not run and no parent is read. */
  lemma BlankParentIdIsAbsent(input: Input, s: string, snippetIds: set<nat>, commentIds: set<nat>)
    requires Blank(s)
    ensures var blank, absent := input["parent_id" := Str(s)], input - {"parent_id"};
      Passes(blank, snippetIds, commentIds) == Passes(absent, snippetIds, commentIds)
      && Validated(blank, snippetIds, commentIds) == Validated(absent, snippetIds, commentIds)
  {
    var blank, absent := input["parent_id" := Str(s)], input - {"parent_id"};
    assert |"parent_id"| == 9 && |"snippet_id"| == 10 && |"start_line"| == 10 && |"end_line"| == 8 && |"body"| == 4;
    assert forall k :: k != "parent_id" ==> Get(blank, k) == Get(absent, k);
    assert !RulesRun(Get(blank, "parent_id")) && Get(absent, "parent_id").None?;
  }

  /** The rules do not order the range: an end line before the start line passes. */
  lemma RangeOrderNotChecked(snippetId: nat, snippetIds: set<nat>, commentIds: set<nat>)
    requires snippetId in snippetIds
    ensures var input := map["snippet_id" := Int(snippetId), "start_line" := Int(9), "end_line" := Int(2),
                             "body" := Str("x")];
      Passes(input, snippetIds, commentIds)
      && Validated(input, snippetIds, commentIds).value.startLine > Validated(input, snippetIds, commentIds).value.endLine
  {
    var input := map["snippet_id" := Int(snippetId), "start_line" := Int(9), "end_line" := Int(2),
                     "body" := Str("x")];
    assert !TrimmedChar("x"[0]);
    assert Get(input, "parent_id") == None;
    assert SnippetIdPasses(Get(input, "snippet_id"), snippetIds);
    assert LinePasses(Get(input, "start_line"));
    assert BodyPasses(Get(input, "body"));
  }

  /** A line given as a string is read as the integer it spells. */
  lemma LineStringAccepted(n: nat)
    requires n >= 1
    ensures LinePasses(Some(Str(NatToString(n))))
  {
    IntegerStrings(n);
    NatToStringNoLeadingZero(n);
    assert !TrimmedChar(NatToString(n)[0]);
  }
}
