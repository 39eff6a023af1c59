/**
 * The per-scope result cache of app.py's main: the Format button stores its
 * output in the session state under a key naming the scope, and the
 * Translate button reads that key, falling back to the scope's raw text.
 * The session state is a string-keyed dictionary that lives across reruns.
 */
module Session {
  import opened Extraction
  import opened Stages

  /** The whole document ("Complete Document" view) or one page, numbered from 1 ("Individual Pages"). */
  datatype Scope = WholeDocument | Page(number: nat)

  /** The page selector only offers 1..page count. */
  predicate ValidScope(scope: Scope, pageCount: nat)
  {
    scope.Page? ==> 1 <= scope.number <= pageCount
  }

  // ---------------------------------------------------------------------
  // Cache keys

  const WholeDocumentKey: string := "formatted_text"
  const PageKeyPrefix: string := "formatted_text_page_"

  function Digit(d: nat): char
    requires d < 10
  {
    ('0' as int + d) as char
  }

  /** The number a string of decimal digits spells, most significant digit first. */
  function DigitsValue(s: string): nat
    requires forall i :: 0 <= i < |s| ==> '0' <= s[i] <= '9'
  {
    if s == [] then 0 else DigitsValue(s[..|s| - 1]) * 10 + (s[|s| - 1] as int - '0' as int)
  }

  /** Python's `str(n)` for a natural number: the decimal digits that spell `n`, with no leading zero. */
  function Decimal(n: nat): (r: string)
    ensures |r| >= 1
    ensures n >= 10 ==> |r| >= 2
    ensures forall i :: 0 <= i < |r| ==> '0' <= r[i] <= '9'
    ensures DigitsValue(r) == n
    ensures r[0] == '0' ==> n == 0
  {
    if n < 10 then
      var r := [Digit(n)];
      assert r[..0] == [];
      r
    else
      var r := Decimal(n / 10) + [Digit(n % 10)];
      assert r[..|r| - 1] == Decimal(n / 10);
      r
  }

  /** Different numbers are written differently: the digits spell back the number. */
  lemma DecimalInjective(a: nat, b: nat)
    requires Decimal(a) == Decimal(b)
    ensures a == b
  {
    assert a == DigitsValue(Decimal(a)) == DigitsValue(Decimal(b)) == b;
  }

  /** The session-state key a scope's formatted text is stored under (`f'formatted_text_page_{n}'` for page n). */
  function CacheKey(scope: Scope): (r: string)
    ensures scope.WholeDocument? ==> r == WholeDocumentKey
    ensures scope.Page? ==>
              |PageKeyPrefix| < |r| && r[..|PageKeyPrefix|] == PageKeyPrefix &&
              (forall i :: |PageKeyPrefix| <= i < |r| ==> '0' <= r[i] <= '9') &&
              DigitsValue(r[|PageKeyPrefix|..]) == scope.number
  {
    match scope
    case WholeDocument => WholeDocumentKey
    case Page(n) =>
      var r := PageKeyPrefix + Decimal(n);
      assert r[|PageKeyPrefix|..] == Decimal(n);
      r
  }

  /** No two scopes share a cache entry: the whole document's key is no page's key, and pages' keys differ. */
  lemma CacheKeyInjective(s1: Scope, s2: Scope)
    requires CacheKey(s1) == CacheKey(s2)
    ensures s1 == s2
  {
    match s1
    case WholeDocument =>
      assert |CacheKey(s1)| < |PageKeyPrefix| + 1;
    case Page(n1) =>
      match s2
      case WholeDocument =>
      case Page(n2) =>
        var k1, k2 := CacheKey(s1), CacheKey(s2);
        assert k1[|PageKeyPrefix|..] == Decimal(n1);
        assert k2[|PageKeyPrefix|..] == Decimal(n2);
        DecimalInjective(n1, n2);
  }

  /** A scope's raw text: the joined document, or page `n`, which is `pages[n - 1]`. */
  function RawText(pages: seq<string>, scope: Scope): (r: string)
    requires ValidScope(scope, |pages|)
    ensures scope.Page? ==> r == pages[scope.number - 1]
    ensures scope.WholeDocument? ==> r == Join(pages)
    ensures scope.WholeDocument? && |pages| == 1 ==> r == pages[0]
  {
    match scope
    case WholeDocument => Join(pages)
    case Page(n) => pages[n - 1]
  }

  /** Python's `d.get(key, default)`. */
  function Get(entries: map<string, string>, key: string, default: string): string
  {
    if key in entries then entries[key] else default
  }

  /** The raw text main extracts for the selected view before any button is pressed. */
  method ExtractRaw(pages: seq<string>, scope: Scope) returns (raw: string)
    requires ValidScope(scope, |pages|)
    ensures raw == RawText(pages, scope)
  {
    match scope {
      case WholeDocument =>
        raw := ExtractAllText(pages);
      case Page(n) =>
        raw := pages[n - 1];
    }
  }

  /**
   * `st.session_state` as far as the pipeline uses it. It is not tied to the
   * uploaded document: entries stored for one file are read for the next.
   */
  class SessionState {
    var entries: map<string, string>

    constructor ()
      ensures entries == map[]
    {
      entries := map[];
    }

    /**
     * The text Translate sends for a scope: that scope's cached Format output
     * if the Format button was ever pressed for it, whatever that output was
     * (an error string included), otherwise the raw text.
     */
    function TranslateInput(scope: Scope, raw: string): (r: string)
      reads this
      ensures CacheKey(scope) in entries ==> r == entries[CacheKey(scope)]
      ensures CacheKey(scope) !in entries ==> r == raw
    {
      Get(entries, CacheKey(scope), raw)
    }

    /**
     * The Format button: extract the scope's raw text, run the Format stage
     * on it, and store the returned string, error or not, under the scope's
     * key. The scope's entry is overwritten; every other scope's entry is
     * left as it was.
     */
    method RunFormat(pages: seq<string>, scope: Scope, apiKey: string, provider: Request -> Completion)
      returns (formatted: string)
      requires ValidScope(scope, |pages|)
      modifies this
      ensures formatted == StageOutput(Format, provider(MakeRequest(Format, RawText(pages, scope), apiKey)))
      ensures entries == old(entries)[CacheKey(scope) := formatted]
      ensures forall raw :: TranslateInput(scope, raw) == formatted
      ensures forall other: Scope, raw: string :: other != scope ==>
                TranslateInput(other, raw) == old(TranslateInput(other, raw))
    {
      var raw := ExtractRaw(pages, scope);
      formatted := RunStage(Format, raw, apiKey, provider);
      entries := entries[CacheKey(scope) := formatted];
      assert CacheKey(scope) in entries && entries[CacheKey(scope)] == formatted;
      forall other: Scope | other != scope
        ensures CacheKey(other) != CacheKey(scope)
      {
        if CacheKey(other) == CacheKey(scope) {
          CacheKeyInjective(other, scope);
        }
      }
    }

    /**
     * The Translate button: run the Translate stage on the scope's
     * TranslateInput. The translation is shown, not stored.
     */
    method RunTranslate(pages: seq<string>, scope: Scope, apiKey: string, provider: Request -> Completion)
      returns (translated: string)
      requires ValidScope(scope, |pages|)
      ensures translated ==
                StageOutput(Translate, provider(MakeRequest(Translate, TranslateInput(scope, RawText(pages, scope)), apiKey)))
    {
      var raw := ExtractRaw(pages, scope);
      var input := Get(entries, CacheKey(scope), raw);
      assert input == TranslateInput(scope, RawText(pages, scope));
      translated := RunStage(Translate, input, apiKey, provider);
    }

    /**
     * Format, then Translate, for the same scope: Translate sends exactly
     * what Format returned, so a failed Format sends its error string.
     */
    method FormatThenTranslate(pages: seq<string>, scope: Scope, apiKey: string, provider: Request -> Completion)
      returns (formatted: string, translated: string)
      requires ValidScope(scope, |pages|)
      modifies this
      ensures formatted == StageOutput(Format, provider(MakeRequest(Format, RawText(pages, scope), apiKey)))
      ensures translated == StageOutput(Translate, provider(MakeRequest(Translate, formatted, apiKey)))
      ensures provider(MakeRequest(Format, RawText(pages, scope), apiKey)).Raised? ==>
                MakeRequest(Translate, formatted, apiKey).user ==
                "Error in formatting extraction: " + provider(MakeRequest(Format, RawText(pages, scope), apiKey)).message
      ensures entries == old(entries)[CacheKey(scope) := formatted]
    {
      formatted := RunFormat(pages, scope, apiKey, provider);
      translated := RunTranslate(pages, scope, apiKey, provider);
    }

    /**
     * Format while one file is open, then Translate after another file with
     * the same scope is uploaded: the keys name only the scope, so Translate
     * sends the first file's Format output, not the second file's text.
     */
    method FormatThenTranslateNextFile(first: seq<string>, next: seq<string>, scope: Scope, apiKey: string,
                                       provider: Request -> Completion)
      returns (formatted: string, translated: string)
      requires ValidScope(scope, |first|) && ValidScope(scope, |next|)
      modifies this
      ensures formatted == StageOutput(Format, provider(MakeRequest(Format, RawText(first, scope), apiKey)))
      ensures translated == StageOutput(Translate, provider(MakeRequest(Translate, formatted, apiKey)))
      ensures entries == old(entries)[CacheKey(scope) := formatted]
    {
      formatted := RunFormat(first, scope, apiKey, provider);
      translated := RunTranslate(next, scope, apiKey, provider);
    }
  }
}
