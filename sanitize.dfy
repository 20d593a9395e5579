/** `sanitize_input` of the bookshelf views: HTML-escape the text, delete
    each SQL keyword (case-insensitively, leftmost and non-overlapping, one
    pass per keyword, as `re.sub` does with a literal pattern) and strip the
    surrounding whitespace. */
module Sanitize {
  import opened Wrappers
  import opened Text

  /** The five replacements of Django's `escape` (Python's `html.escape`). */
  function EscapeChar(c: char): string {
    if c == '&' then "&amp;"
    else if c == '<' then "&lt;"
    else if c == '>' then "&gt;"
    else if c == '"' then "&quot;"
    else if c == '\'' then "&#x27;"
    else [c]
  }

  /** The characters that must never survive escaping. */
  predicate IsHtmlSpecial(c: char) {
    c == '<' || c == '>' || c == '"' || c == '\''
  }

  function Escape(s: string): (r: string)
    ensures |r| >= |s|
    ensures forall c :: c in r ==> !IsHtmlSpecial(c)
  {
    if s == [] then [] else EscapeChar(s[0]) + Escape(s[1..])
  }

  /** Decoding of the five entities `Escape` produces; everything else is
      copied. Used only to state that escaping loses no information. */
  function Unescape(s: string): string
    decreases |s|
  {
    if s == [] then []
    else if "&amp;" <= s then "&" + Unescape(s[5..])
    else if "&lt;" <= s then "<" + Unescape(s[4..])
    else if "&gt;" <= s then ">" + Unescape(s[4..])
    else if "&quot;" <= s then "\"" + Unescape(s[6..])
    else if "&#x27;" <= s then "'" + Unescape(s[6..])
    else [s[0]] + Unescape(s[1..])
  }

  lemma UnescapeEscapeChar(c: char, t: string)
    ensures Unescape(EscapeChar(c) + t) == [c] + Unescape(t)
  {
    var e := EscapeChar(c) + t;
    assert e[|EscapeChar(c)|..] == t;
    if c == '&' {
      assert "&amp;" <= e;
    } else if c == '<' {
      assert e[1] == 'l' && "&lt;" <= e;
    } else if c == '>' {
      assert e[1] == 'g' && !("&lt;" <= e) && "&gt;" <= e;
    } else if c == '"' {
      assert e[1] == 'q' && !("&lt;" <= e) && !("&gt;" <= e) && "&quot;" <= e;
    } else if c == '\'' {
      assert e[1] == '#' && !("&lt;" <= e) && !("&gt;" <= e) && !("&quot;" <= e) && "&#x27;" <= e;
    } else {
      assert e == [c] + t && e[0] == c && e[1..] == t;
      assert !("&amp;" <= e) && !("&lt;" <= e) && !("&gt;" <= e);
      assert !("&quot;" <= e) && !("&#x27;" <= e);
    }
  }

  /** Escaping is injective: unescaping recovers the input. */
  lemma {:induction false} UnescapeEscape(s: string)
    ensures Unescape(Escape(s)) == s
  {
    if s != [] {
      UnescapeEscape(s[1..]);
      UnescapeEscapeChar(s[0], Escape(s[1..]));
      assert s == [s[0]] + s[1..];
    }
  }

  /** `re.sub(re.escape(kw), '', s, flags=re.IGNORECASE)`: delete the
      leftmost match, resume after it, repeat. */
  function RemoveAll(s: string, kw: string): (r: string)
    requires kw != []
    ensures |r| <= |s|
    ensures forall c :: c in r ==> c in s
    decreases |s|
  {
    if |s| < |kw| then s
    else if StartsWithIgnoringCase(s, kw) then RemoveAll(s[|kw|..], kw)
    else [s[0]] + RemoveAll(s[1..], kw)
  }

  /** A string in which the keyword does not occur is left unchanged. */
  lemma {:induction false} RemoveAbsent(s: string, kw: string)
    requires kw != []
    requires !ContainsIgnoringCase(s, kw)
    ensures RemoveAll(s, kw) == s
    decreases |s|
  {
    if |s| >= |kw| {
      assert s[0..] == s;
      assert !StartsWithIgnoringCase(s, kw);
      forall i | 0 <= i <= |s[1..]|
        ensures !StartsWithIgnoringCase(s[1..][i..], kw)
      {
        assert s[1..][i..] == s[i + 1..];
      }
      RemoveAbsent(s[1..], kw);
      assert s == [s[0]] + s[1..];
    }
  }

  /** A leading match is deleted and deletion resumes after it. */
  lemma RemoveAllDropsMatch(kw: string, rest: string)
    requires kw != []
    ensures RemoveAll(kw + rest, kw) == RemoveAll(rest, kw)
  {
    var s := kw + rest;
    assert StartsWithIgnoringCase(s, kw) by {
      assert forall k :: 0 <= k < |kw| ==> s[k] == kw[k];
    }
    assert s[|kw|..] == rest;
  }

  /** A string that does not start with a match keeps its first character. */
  lemma RemoveAllKeepsFirst(s: string, kw: string, k: nat)
    requires kw != [] && |kw| <= |s| && k < |kw| && !SameIgnoringCase(s[k], kw[k])
    ensures RemoveAll(s, kw) == [s[0]] + RemoveAll(s[1..], kw)
  {
  }

  /** Deletion is a single pass: deleting the "SELECT" inside
      "SEL" + "SELECT" + "ECT" joins the remaining letters into a new
      "SELECT". */
  lemma KeywordReforms(kw: string)
    requires kw == "SELECT"
    ensures RemoveAll(kw[..3] + kw + kw[3..], kw) == kw
  {
    var head, tail := kw[..3], kw[3..];
    var s3 := kw + tail;
    var s2 := [head[2]] + s3;
    var s1 := [head[1]] + s2;
    var s0 := [head[0]] + s1;
    assert s0 == head + kw + tail;
    RemoveAllDropsMatch(kw, tail);
    assert RemoveAll(tail, kw) == tail;
    RemoveAllKeepsFirst(s2, kw, 0);
    assert s2[1..] == s3;
    assert RemoveAll(s2, kw) == [head[2]] + tail;
    RemoveAllKeepsFirst(s1, kw, 0);
    assert s1[1..] == s2;
    assert RemoveAll(s1, kw) == [head[1]] + ([head[2]] + tail);
    RemoveAllKeepsFirst(s0, kw, 3);
    assert s0[1..] == s1;
    assert RemoveAll(s0, kw) == [head[0]] + ([head[1]] + ([head[2]] + tail));
    JoinedAgain(head, tail);
  }

  lemma JoinedAgain(head: string, tail: string)
    requires |head| == 3
    ensures [head[0]] + ([head[1]] + ([head[2]] + tail)) == head + tail
  {
  }

  /** The keywords in the order `sanitize_input` deletes them. */
  const SqlKeywords: seq<string> := ["SELECT", "INSERT", "UPDATE", "DELETE", "DROP", "UNION", "--"]

  predicate NonEmptyAll(kws: seq<string>) {
    forall i :: 0 <= i < |kws| ==> kws[i] != []
  }

  /** Delete `kws[0]`, then `kws[1]`, ... (stated from the last keyword back). */
  function RemoveKeywords(s: string, kws: seq<string>): string
    requires NonEmptyAll(kws)
    decreases |kws|
  {
    if kws == [] then s
    else RemoveAll(RemoveKeywords(s, kws[..|kws| - 1]), kws[|kws| - 1])
  }

  lemma {:induction false} RemoveKeywordsChars(s: string, kws: seq<string>)
    requires NonEmptyAll(kws)
    ensures forall c :: c in RemoveKeywords(s, kws) ==> c in s
    decreases |kws|
  {
    if kws != [] {
      RemoveKeywordsChars(s, kws[..|kws| - 1]);
    }
  }

  /** Deleting "--" by leftmost, non-overlapping matching never leaves "--". */
  predicate NoDoubleDash(s: string) {
    forall i :: 0 <= i < |s| - 1 ==> !(s[i] == '-' && s[i + 1] == '-')
  }

  lemma FirstKept(t: string)
    requires |t| > 0 && t[0] != '-'
    ensures RemoveAll(t, "--") != [] && RemoveAll(t, "--")[0] == t[0]
  {
    if |t| >= 2 {
      assert !SameIgnoringCase(t[0], '-');
    }
  }

  lemma {:induction false} NoDoubleDashAfterRemoval(s: string)
    ensures NoDoubleDash(RemoveAll(s, "--"))
    decreases |s|
  {
    if |s| < 2 {
    } else if StartsWithIgnoringCase(s, "--") {
      NoDoubleDashAfterRemoval(s[2..]);
    } else {
      NoDoubleDashAfterRemoval(s[1..]);
      var rest := RemoveAll(s[1..], "--");
      if s[0] == '-' {
        assert SameIgnoringCase(s[0], '-');
        assert s[1] != '-';
        FirstKept(s[1..]);
      }
      var r := [s[0]] + rest;
      forall i | 0 <= i < |r| - 1
        ensures !(r[i] == '-' && r[i + 1] == '-')
      {
        if i > 0 {
          assert r[i] == rest[i - 1] && r[i + 1] == rest[i];
        }
      }
    }
  }

  /** What `sanitize_input` returns; `None` stands for a missing value. */
  function Sanitized(input: Option<string>): string {
    if input == None || input.value == "" then ""
    else Strip(RemoveKeywords(Escape(input.value), SqlKeywords))
  }

  lemma SqlKeywordsNonEmpty()
    ensures NonEmptyAll(SqlKeywords)
    ensures SqlKeywords[|SqlKeywords| - 1] == "--"
  {
  }

  /** The result never contains `<`, `>`, `"` or `'`: escaping replaced
      them and every later step only deletes characters. */
  lemma SanitizedNoHtmlSpecial(input: Option<string>)
    ensures forall c :: c in Sanitized(input) ==> !IsHtmlSpecial(c)
  {
    if input != None && input.value != "" {
      SqlKeywordsNonEmpty();
      var escaped := Escape(input.value);
      var removed := RemoveKeywords(escaped, SqlKeywords);
      RemoveKeywordsChars(escaped, SqlKeywords);
      var r := Strip(removed);
      var a := LeadingSpace(removed);
      forall c | c in r ensures !IsHtmlSpecial(c) {
        var k :| 0 <= k < |r| && r[k] == c;
        assert removed[a + k] == c;
      }
    }
  }

  /** "--" is deleted last and stripping keeps a slice, so the result never
      contains "--". */
  lemma SanitizedNoDoubleDash(input: Option<string>)
    ensures NoDoubleDash(Sanitized(input))
  {
    if input != None && input.value != "" {
      SqlKeywordsNonEmpty();
      var escaped := Escape(input.value);
      var removed := RemoveKeywords(escaped, SqlKeywords);
      NoDoubleDashAfterRemoval(RemoveKeywords(escaped, SqlKeywords[..|SqlKeywords| - 1]));
      assert NoDoubleDash(removed);
      var r := Strip(removed);
      var a := LeadingSpace(removed);
      forall i | 0 <= i < |r| - 1 ensures !(r[i] == '-' && r[i + 1] == '-') {
        assert r[i] == removed[a + i] && r[i + 1] == removed[a + i + 1];
      }
    }
  }

  /** Deleting one more keyword extends the pass by one `re.sub`. */
  lemma RemoveKeywordsStep(s: string, kws: seq<string>, i: nat)
    requires NonEmptyAll(kws) && i < |kws|
    ensures NonEmptyAll(kws[..i]) && NonEmptyAll(kws[..i + 1])
    ensures RemoveKeywords(s, kws[..i + 1]) == RemoveAll(RemoveKeywords(s, kws[..i]), kws[i])
  {
    assert kws[..i + 1][..i] == kws[..i];
  }

  /** `sanitize_input`: one `re.sub` per keyword, in order, then `strip`. */
  method SanitizeInput(input: Option<string>) returns (r: string)
    ensures r == Sanitized(input)
    ensures (input == None || input == Some("")) ==> r == ""
    ensures r != [] ==> !IsSpace(r[0]) && !IsSpace(r[|r| - 1])
    ensures forall c :: c in r ==> !IsHtmlSpecial(c)
    ensures NoDoubleDash(r)
  {
    SanitizedNoHtmlSpecial(input);
    SanitizedNoDoubleDash(input);
    if input == None || input.value == "" {
      return "";
    }
    var sanitized := Escape(input.value);
    ghost var escaped := sanitized;
    SqlKeywordsNonEmpty();
    assert NonEmptyAll(SqlKeywords[..0]);
    for i := 0 to |SqlKeywords|
      invariant NonEmptyAll(SqlKeywords[..i])
      invariant sanitized == RemoveKeywords(escaped, SqlKeywords[..i])
    {
      RemoveKeywordsStep(escaped, SqlKeywords, i);
      sanitized := RemoveAll(sanitized, SqlKeywords[i]);
    }
    assert SqlKeywords[..|SqlKeywords|] == SqlKeywords;
    r := Strip(sanitized);
  }
}
