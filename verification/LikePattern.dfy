/** LIKE, and the escaping that turns it into a plain substring test. */
module LikePattern {
  import opened Prelude
  import opened Audience

  predicate Meta(c: char) {
    c == '\\' || c == '%' || c == '_'
  }

  /** value.replace(/[\\%_]/g, '\\$&') */
  function EscapeLike(s: string): string {
    if s == [] then [] else (if Meta(s[0]) then ['\\', s[0]] else [s[0]]) + EscapeLike(s[1..])
  }

  function Pattern(needle: string): string {
    ['%'] + EscapeLike(needle) + ['%']
  }

  /** ILIKE with Postgres' default escape character. */
  predicate Like(w: World, pattern: string, text: string)
    decreases |pattern|, |text|
  {
    if pattern == [] then text == []
    else if pattern[0] == '%' then
      Like(w, pattern[1..], text) || (text != [] && Like(w, pattern, text[1..]))
    else if text == [] then false
    else if pattern[0] == '_' then Like(w, pattern[1..], text[1..])
    else if pattern[0] == '\\' && |pattern| > 1 then
      w.fold(pattern[1]) == w.fold(text[0]) && Like(w, pattern[2..], text[1..])
    else w.fold(pattern[0]) == w.fold(text[0]) && Like(w, pattern[1..], text[1..])
  }

  lemma {:induction false} PercentTakesAll(w: World, text: string)
    ensures Like(w, ['%'], text)
    decreases |text|
  {
    if text != [] {
      PercentTakesAll(w, text[1..]);
    }
  }

  /** An escaped needle, then anything, is a prefix test. */
  lemma {:induction false} EscapedIsPrefix(w: World, needle: string, text: string)
    ensures Like(w, EscapeLike(needle) + ['%'], text) <==> StartsWith(w, needle, text)
    decreases |needle|
  {
    var pattern := EscapeLike(needle) + ['%'];
    if needle == [] {
      assert pattern == ['%'];
      PercentTakesAll(w, text);
    } else if text != [] {
      var rest := EscapeLike(needle[1..]) + ['%'];
      assert pattern == (if Meta(needle[0]) then ['\\', needle[0]] else [needle[0]]) + rest;
      assert if Meta(needle[0]) then pattern[2..] == rest else pattern[1..] == rest;
      EscapedIsPrefix(w, needle[1..], text[1..]);
      assert StartsWith(w, needle, text) <==>
        w.fold(needle[0]) == w.fold(text[0]) && StartsWith(w, needle[1..], text[1..]) by {
        PrefixStep(w, needle, text);
      }
    }
  }

  lemma PrefixStep(w: World, needle: string, text: string)
    requires needle != [] && text != []
    ensures StartsWith(w, needle, text) <==>
      w.fold(needle[0]) == w.fold(text[0]) && StartsWith(w, needle[1..], text[1..])
  {
    if w.fold(needle[0]) == w.fold(text[0]) && StartsWith(w, needle[1..], text[1..]) {
      forall k | 0 <= k < |needle| ensures w.fold(needle[k]) == w.fold(text[k]) {
        if k > 0 {
          assert needle[k] == needle[1..][k - 1] && text[k] == text[1..][k - 1];
        }
      }
    }
    if StartsWith(w, needle, text) {
      forall k | 0 <= k < |needle[1..]| ensures w.fold(needle[1..][k]) == w.fold(text[1..][k]) {
        assert needle[1..][k] == needle[k + 1] && text[1..][k] == text[k + 1];
      }
    }
  }

  /** Why escaping is needed: as it stands, an underscore finds any character, and a percent sign any text. */
  lemma UnescapedFindsMore(w: World, text: string)
    ensures Like(w, ['%', '_', '%'], text) <==> text != []
    ensures Like(w, ['%', '%', '%'], text)
  {
    if text != [] {
      PercentTakesAll(w, text[1..]);
      assert ['%', '_', '%'][1..] == ['_', '%'] && ['_', '%'][1..] == ['%'];
      assert Like(w, ['_', '%'], text);
    }
    PercentTakesAll(w, text);
    assert ['%', '%', '%'][1..] == ['%', '%'] && ['%', '%'][1..] == ['%'];
    assert Like(w, ['%', '%'], text);
  }

  /** Whatever the operator typed, wildcards included, the pattern finds it literally. */
  lemma {:induction false} PatternIsSubstring(w: World, needle: string, text: string)
    ensures Like(w, Pattern(needle), text) <==> Within(w, needle, text)
    decreases |text|
  {
    var tail := EscapeLike(needle) + ['%'];
    assert Pattern(needle)[1..] == tail;
    EscapedIsPrefix(w, needle, text);
    assert text[0..] == text;
    if text != [] {
      PatternIsSubstring(w, needle, text[1..]);
      if Within(w, needle, text[1..]) {
        var i :| 0 <= i <= |text[1..]| && StartsWith(w, needle, text[1..][i..]);
        assert text[1..][i..] == text[i + 1..];
      }
      if Within(w, needle, text) && !StartsWith(w, needle, text) {
        var i :| 0 <= i <= |text| && StartsWith(w, needle, text[i..]);
        assert text[1..][i - 1..] == text[i..];
      }
    }
  }
}
