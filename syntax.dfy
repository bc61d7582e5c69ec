/**
 * The language names the highlighter knows, and `normalizeLanguage`, which maps any
 * user-supplied language to one of them or to plain `text`.
 */
module Syntax {
  import opened Common

  /** `SUPPORTED_LANGUAGES`. */
  const SupportedLanguages: seq<string> :=
    ["php", "javascript", "typescript", "python", "java", "bash", "sql", "json", "markdown", "css", "scss"]

  const PlainText: string := "text"

  /** The characters `String.prototype.trim` removes: white space and line terminators. */
  predicate JsSpace(c: char)
  {
    c == '\t' || c == '\n' || c == '\U{000B}' || c == '\U{000C}' || c == '\r' || c == ' '
    || c == '\U{00A0}' || c == '\U{1680}' || '\U{2000}' <= c <= '\U{200A}'
    || c == '\U{2028}' || c == '\U{2029}' || c == '\U{202F}' || c == '\U{205F}'
    || c == '\U{3000}' || c == '\U{FEFF}'
  }

  predicate AllSpace(s: string)
  {
    forall i :: 0 <= i < |s| ==> JsSpace(s[i])
  }

  function TrimStart(s: string): (r: string)
    ensures r != [] ==> !JsSpace(r[0])
  {
    if s != [] && JsSpace(s[0]) then TrimStart(s[1..]) else s
  }

  function TrimEnd(s: string): (r: string)
    ensures r != [] ==> !JsSpace(r[|r| - 1])
  {
    if s != [] && JsSpace(s[|s| - 1]) then TrimEnd(s[..|s| - 1]) else s
  }

  /** `trim()`. */
  function Trim(s: string): string
  {
    TrimEnd(TrimStart(s))
  }

  /** `normalizeLanguage`: lower-case and trim; a listed name stays, anything else is `text`. */
  function NormalizeLanguage(lang: string): (r: string)
    ensures r in SupportedLanguages || r == PlainText
    ensures r == PlainText <==> Trim(Lower(lang)) !in SupportedLanguages
  {
    var normalized := Trim(Lower(lang));
    if normalized in SupportedLanguages then normalized else PlainText
  }

  /** A word of lower-case ASCII letters. */
  predicate LowerWord(s: string)
  {
    s != [] && forall i :: 0 <= i < |s| ==> 'a' <= s[i] <= 'z'
  }

  lemma LowerWordNormal(s: string)
    requires LowerWord(s)
    ensures Lower(s) == s && Trim(s) == s
  {
    assert TrimStart(s) == s;
    assert TrimEnd(s) == s;
  }

  /** Every listed language maps to itself. */
  lemma ListedLanguagesAreFixed(lang: string)
    requires lang in SupportedLanguages
    ensures NormalizeLanguage(lang) == lang
  {
    assert forall l :: l in SupportedLanguages ==> LowerWord(l);
    LowerWordNormal(lang);
  }

  /** Normalising twice is normalising once. */
  lemma NormalizeIdempotent(lang: string)
    ensures NormalizeLanguage(NormalizeLanguage(lang)) == NormalizeLanguage(lang)
  {
    var r := NormalizeLanguage(lang);
    if r in SupportedLanguages {
      ListedLanguagesAreFixed(r);
    } else {
      assert LowerWord(PlainText);
      LowerWordNormal(PlainText);
      assert PlainText !in SupportedLanguages;
    }
  }

  /** Leading white space does not survive `TrimStart`. */
  lemma {:induction false} TrimStartSpaces(pad: string, s: string)
    requires AllSpace(pad)
    ensures TrimStart(pad + s) == TrimStart(s)
    decreases |pad|
  {
    if pad != [] {
      assert (pad + s)[0] == pad[0] && JsSpace(pad[0]);
      assert (pad + s)[1..] == pad[1..] + s;
      assert TrimStart(pad + s) == TrimStart(pad[1..] + s);
      TrimStartSpaces(pad[1..], s);
    } else {
      assert pad + s == s;
    }
  }

  /** Trailing white space does not survive `TrimEnd`. */
  lemma {:induction false} TrimEndSpaces(s: string, pad: string)
    requires AllSpace(pad)
    ensures TrimEnd(s + pad) == TrimEnd(s)
    decreases |pad|
  {
    if pad != [] {
      var shorter := pad[..|pad| - 1];
      assert (s + pad)[|s + pad| - 1] == pad[|pad| - 1] && JsSpace(pad[|pad| - 1]);
      assert (s + pad)[..|s + pad| - 1] == s + shorter;
      assert TrimEnd(s + pad) == TrimEnd(s + shorter);
      TrimEndSpaces(s, shorter);
    } else {
      assert s + pad == s;
    }
  }

  /** Text with a visible character keeps what follows it through `TrimStart`. */
  lemma {:induction false} TrimStartAppend(s: string, tail: string)
    requires !AllSpace(s)
    ensures TrimStart(s + tail) == TrimStart(s) + tail
    decreases |s|
  {
    if JsSpace(s[0]) {
      assert (s + tail)[1..] == s[1..] + tail;
      TrimStartAppend(s[1..], tail);
    }
  }

  /** `trim` of text padded with white space on both sides is the `trim` of the text. */
  lemma TrimPadded(before: string, s: string, after: string)
    requires AllSpace(before) && AllSpace(after)
    ensures Trim(before + s + after) == Trim(s)
  {
    assert before + s + after == before + (s + after);
    TrimStartSpaces(before, s + after);
    if AllSpace(s) {
      TrimStartSpaces(s + after, []);
      assert s + after + [] == s + after;
      TrimStartSpaces(s, []);
      assert s + [] == s;
    } else {
      TrimStartAppend(s, after);
      TrimEndSpaces(TrimStart(s), after);
    }
  }

  /** White space around the input makes no difference to the result. */
  lemma NormalizePadded(before: string, lang: string, after: string)
    requires AllSpace(before) && AllSpace(after)
    ensures NormalizeLanguage(before + lang + after) == NormalizeLanguage(lang)
  {
    assert Lower(before + lang + after) == before + Lower(lang) + after;
    TrimPadded(before, Lower(lang), after);
  }

  /** Surrounding white space and letter case make no difference to the result. */
  lemma NormalizeIgnoresCaseAndPadding(before: string, lang: string, after: string)
    requires AllSpace(before) && AllSpace(after)
    ensures NormalizeLanguage(before + Upper(lang) + after) == NormalizeLanguage(lang)
  {
    NormalizePadded(before, Upper(lang), after);
    LowerUpper(lang);
  }
}
