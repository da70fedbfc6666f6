/** Merging values into templates: two passes through sentinels, and the one pass they stand for. */
module Renderer {
  import opened Prelude

  const NUL := '\0'

  // ------------------------------------------------------------------------- escaping

  /** value.replace(/c/g, entity) */
  function Substitute(s: string, c: char, entity: string): string {
    if s == [] then [] else (if s[0] == c then entity else [s[0]]) + Substitute(s[1..], c, entity)
  }

  /** The five passes, ampersands first. */
  function EscapeHtml(s: string): string {
    var s1 := Substitute(s, '&', "&amp;");
    var s2 := Substitute(s1, '<', "&lt;");
    var s3 := Substitute(s2, '>', "&gt;");
    var s4 := Substitute(s3, '\"', "&quot;");
    Substitute(s4, '\'', "&#39;")
  }

  function Entity(c: char): string {
    if c == '&' then "&amp;"
    else if c == '<' then "&lt;"
    else if c == '>' then "&gt;"
    else if c == '\"' then "&quot;"
    else if c == '\'' then "&#39;"
    else [c]
  }

  function EscapeEach(s: string): string {
    if s == [] then [] else Entity(s[0]) + EscapeEach(s[1..])
  }

  lemma {:induction false} SubstituteConcat(a: string, b: string, c: char, entity: string)
    ensures Substitute(a + b, c, entity) == Substitute(a, c, entity) + Substitute(b, c, entity)
    decreases |a|
  {
    if a == [] {
      assert a + b == b;
    } else {
      assert (a + b)[1..] == a[1..] + b;
      SubstituteConcat(a[1..], b, c, entity);
    }
  }

  lemma {:induction false} SubstituteAbsent(s: string, c: char, entity: string)
    requires c !in s
    ensures Substitute(s, c, entity) == s
  {
    if s != [] {
      SubstituteAbsent(s[1..], c, entity);
    }
  }

  lemma {:induction false} EscapeConcat(a: string, b: string)
    ensures EscapeHtml(a + b) == EscapeHtml(a) + EscapeHtml(b)
  {
    hide Substitute;
    SubstituteConcat(a, b, '&', "&amp;");
    var a1, b1 := Substitute(a, '&', "&amp;"), Substitute(b, '&', "&amp;");
    SubstituteConcat(a1, b1, '<', "&lt;");
    var a2, b2 := Substitute(a1, '<', "&lt;"), Substitute(b1, '<', "&lt;");
    SubstituteConcat(a2, b2, '>', "&gt;");
    var a3, b3 := Substitute(a2, '>', "&gt;"), Substitute(b2, '>', "&gt;");
    SubstituteConcat(a3, b3, '\"', "&quot;");
    var a4, b4 := Substitute(a3, '\"', "&quot;"), Substitute(b3, '\"', "&quot;");
    SubstituteConcat(a4, b4, '\'', "&#39;");
  }

  lemma SubstituteHit(c: char, entity: string)
    ensures Substitute([c], c, entity) == entity
  {
    assert [c][1..] == [];
    assert entity + [] == entity;
  }

  /** The passes after the first, on a text none of them looks for. */
  lemma LaterPassesSkip(s: string)
    requires '<' !in s && '>' !in s && '\"' !in s && '\'' !in s
    ensures
      && Substitute(s, '<', "&lt;") == s && Substitute(s, '>', "&gt;") == s
      && Substitute(s, '\"', "&quot;") == s && Substitute(s, '\'', "&#39;") == s
  {
    SubstituteAbsent(s, '<', "&lt;");
    SubstituteAbsent(s, '>', "&gt;");
    SubstituteAbsent(s, '\"', "&quot;");
    SubstituteAbsent(s, '\'', "&#39;");
  }

  lemma PassOnOne(x: char, c: char, entity: string)
    ensures Substitute([x], c, entity) == if x == c then entity else [x]
  {
    hide Substitute;
    if x == c {
      SubstituteHit(c, entity);
    } else {
      SubstituteAbsent([x], c, entity);
    }
  }

  /** A character goes through the passes that do not look for it, and its entity through the passes after its own. */
  lemma EscapeOne(c: char)
    ensures EscapeHtml([c]) == Entity(c)
  {
    LaterPassesSkip(Entity(c));
    hide Substitute;
    PassOnOne(c, '&', "&amp;");
    PassOnOne(c, '<', "&lt;");
    PassOnOne(c, '>', "&gt;");
    PassOnOne(c, '\"', "&quot;");
    PassOnOne(c, '\'', "&#39;");
  }

  /** Five passes, one map: no pass touches what another wrote. */
  lemma {:induction false} EscapeIsPerCharacter(s: string)
    ensures EscapeHtml(s) == EscapeEach(s)
  {
    if s != [] {
      assert s == [s[0]] + s[1..];
      EscapeConcat([s[0]], s[1..]);
      EscapeOne(s[0]);
      hide EscapeHtml;
      EscapeIsPerCharacter(s[1..]);
    }
  }

  /** What a reader of HTML makes of the five entities. */
  function Unescape(s: string): string {
    if s == [] then []
    else if "&amp;" <= s then ['&'] + Unescape(s[5..])
    else if "&lt;" <= s then ['<'] + Unescape(s[4..])
    else if "&gt;" <= s then ['>'] + Unescape(s[4..])
    else if "&quot;" <= s then ['\"'] + Unescape(s[6..])
    else if "&#39;" <= s then ['\''] + Unescape(s[5..])
    else [s[0]] + Unescape(s[1..])
  }

  lemma UnescapeEntity(c: char, rest: string)
    ensures Unescape(Entity(c) + rest) == [c] + Unescape(rest)
  {
    var s := Entity(c) + rest;
    assert s[|Entity(c)|..] == rest;
    if c == '&' {
      assert s[..5] == "&amp;";
    } else if c == '<' {
      assert s[..4] == "&lt;" && s[1] == 'l';
    } else if c == '>' {
      assert s[..4] == "&gt;" && s[1] == 'g';
    } else if c == '\"' {
      assert s[..6] == "&quot;" && s[1] == 'q';
    } else if c == '\'' {
      assert s[..5] == "&#39;" && s[1] == '#';
    } else {
      assert s[0] != '&';
    }
  }

  /** Nothing is lost: what was escaped reads back as it was. */
  lemma {:induction false} EscapeRoundTrip(s: string)
    ensures Unescape(EscapeHtml(s)) == s
  {
    EscapeIsPerCharacter(s);
    if s != [] {
      EscapeIsPerCharacter(s[1..]);
      EscapeRoundTrip(s[1..]);
      UnescapeEntity(s[0], EscapeEach(s[1..]));
    }
  }

  // --------------------------------------------------------------------------- values

  datatype Context = Context(
    contact: map<string, string>, order: Option<map<string, string>>,
    unsubscribeUrl: Option<string>, preferencesUrl: Option<string>)

  /** The text up to the first dot, or all of it. */
  function UpToDot(s: string): string {
    if s == [] || s[0] == '.' then [] else [s[0]] + UpToDot(s[1..])
  }

  function Field(bag: map<string, string>, key: string): Option<string> {
    if key in bag then Some(bag[key]) else None
  }

  function Lookup(ctx: Context, path: string): Option<string> {
    if path == "unsubscribe_url" then ctx.unsubscribeUrl
    else if path == "preferences_url" then ctx.preferencesUrl
    else
      var root := UpToDot(path);
      if |root| + 1 >= |path| then None
      else
        var key := UpToDot(path[|root| + 1..]);
        if root == [] || key == [] then None
        else if root == "contact" then Field(ctx.contact, key)
        else if root == "order" && ctx.order.Some? then Field(ctx.order.value, key)
        else None
  }

  function StripNul(s: string): string {
    if s == [] then [] else (if s[0] == NUL then [] else [s[0]]) + StripNul(s[1..])
  }

  function MergeValue(ctx: Context, path: string): (value: string)
    ensures NUL !in value
  {
    StripNulRemoves(if Lookup(ctx, path).Some? then Lookup(ctx, path).value else "");
    StripNul(if Lookup(ctx, path).Some? then Lookup(ctx, path).value else "")
  }

  lemma {:induction false} StripNulRemoves(s: string)
    ensures NUL !in StripNul(s)
  {
    if s != [] {
      StripNulRemoves(s[1..]);
    }
  }

  function Shown(ctx: Context, path: string, escape: bool): string {
    if escape then EscapeHtml(MergeValue(ctx, path)) else MergeValue(ctx, path)
  }

  lemma {:induction false} EscapeKeepsNulOut(s: string)
    requires NUL !in s
    ensures NUL !in EscapeHtml(s)
  {
    EscapeIsPerCharacter(s);
    if s != [] {
      EscapeIsPerCharacter(s[1..]);
      EscapeKeepsNulOut(s[1..]);
      assert NUL !in Entity(s[0]);
    }
  }

  // ------------------------------------------------------------------------ the tokens

  predicate Space(c: char) {
    c == ' ' || '\t' <= c <= '\r' || c == '\U{00A0}' || c == '\U{FEFF}' || c == '\U{1680}'
    || '\U{2000}' <= c <= '\U{200A}' || c == '\U{2028}' || c == '\U{2029}' || c == '\U{202F}'
    || c == '\U{205F}' || c == '\U{3000}'
  }

  predicate PathChar(c: char) {
    'a' <= c <= 'z' || 'A' <= c <= 'Z' || '0' <= c <= '9' || c == '_' || c == '.'
  }

  /** How many characters at the front are spaces, or of a path. */
  function Run(p: char -> bool, s: string): (n: nat)
    ensures n <= |s|
  {
    if s == [] || !p(s[0]) then 0 else 1 + Run(p, s[1..])
  }

  /** What was matched at the front of a text: the path, and how many characters it took. */
  datatype Hit = Hit(path: string, length: nat)

  /** Spaces, a path, spaces. Each run takes all it can: no character belongs to two of them. */
  function Inner(s: string): (m: Option<Hit>)
    ensures m.Some? ==> 1 <= m.value.length <= |s|
  {
    var i := Run(Space, s);
    var word := s[i..];
    var j := Run(PathChar, word);
    if j == 0 then None else Some(Hit(word[..j], i + j + Run(Space, word[j..])))
  }

  /** /\{\{\{\s*([a-zA-Z0-9_.]+)\s*\}\}\}/ at the front of the text. */
  function RawMatch(s: string): (m: Option<Hit>)
    ensures m.Some? ==> 7 <= m.value.length <= |s| && s[0] == '{'
  {
    if !("{{{" <= s) then None
    else
      match Inner(s[3..])
      case None => None
      case Some(m) => if "}}}" <= s[3 + m.length..] then Some(Hit(m.path, m.length + 6)) else None
  }

  /** How many braces close the token: a third one is taken when it is there. */
  function Closing(s: string): nat {
    if "}}}" <= s then 3 else if "}}" <= s then 2 else 0
  }

  function Opening(s: string): nat {
    if "{{{" <= s then 3 else if "{{" <= s then 2 else 0
  }

  /** /\{\{\{?\s*([a-zA-Z0-9_.]+)\s*\}?\}\}/ at the front of the text. */
  function TokenMatch(s: string): (m: Option<Hit>)
    ensures m.Some? ==> 5 <= m.value.length <= |s| && s[0] == '{'
  {
    var a := Opening(s);
    if a == 0 then None
    else
      match Inner(s[a..])
      case None => None
      case Some(m) =>
        var b := Closing(s[a + m.length..]);
        if b == 0 then None else Some(Hit(m.path, a + m.length + b))
  }

  // ----------------------------------------------------------------------- the two passes

  function Decimal(n: nat): string {
    if n < 10 then [('0' as int + n) as char] else Decimal(n / 10) + [('0' as int + n % 10) as char]
  }

  function Sentinel(n: nat): string {
    [NUL] + "RAW" + Decimal(n) + [NUL]
  }

  datatype Extracted = Extracted(output: string, raws: seq<string>)

  /** template.replace(RAW_TOKEN, ...): every raw block becomes a sentinel, its value is kept aside. */
  function RawPass(s: string, n: nat, ctx: Context): Extracted
    decreases |s|
  {
    if s == [] then Extracted([], [])
    else match RawMatch(s)
      case Some(m) =>
        var rest := RawPass(s[m.length..], n + 1, ctx);
        Extracted(Sentinel(n) + rest.output, [MergeValue(ctx, m.path)] + rest.raws)
      case None =>
        var rest := RawPass(s[1..], n, ctx);
        Extracted([s[0]] + rest.output, rest.raws)
  }

  /** output.replace(TOKEN, ...) */
  function TokenPass(s: string, ctx: Context, escape: bool): string
    decreases |s|
  {
    if s == [] then []
    else match TokenMatch(s)
      case Some(m) => Shown(ctx, m.path, escape) + TokenPass(s[m.length..], ctx, escape)
      case None => [s[0]] + TokenPass(s[1..], ctx, escape)
  }

  /** output.replace(token, () => value): the first occurrence only. */
  function ReplaceFirst(s: string, token: string, value: string): string
    decreases |s|
  {
    if token <= s then value + s[|token|..]
    else if s == [] then []
    else [s[0]] + ReplaceFirst(s[1..], token, value)
  }

  function Restore(s: string, raws: seq<string>): string
  {
    if raws == [] then s
    else ReplaceFirst(Restore(s, raws[..|raws| - 1]), Sentinel(|raws| - 1), raws[|raws| - 1])
  }

  function TwoPass(template: string, ctx: Context, escape: bool): string {
    var raw := RawPass(template, 0, ctx);
    Restore(TokenPass(raw.output, ctx, escape), raw.raws)
  }

  method Render(template: string, ctx: Context, escape: bool) returns (output: string)
    ensures output == TwoPass(template, ctx, escape)
  {
    hide Restore, RawPass, TokenPass, ReplaceFirst, Sentinel;
    var raw := RawPass(template, 0, ctx);
    var raws := raw.raws;
    var tokens := TokenPass(raw.output, ctx, escape);
    output := tokens;
    NothingToRestore(tokens, raws);
    for i := 0 to |raws|
      invariant output == Restore(tokens, raws[..i])
    {
      RestoreStep(tokens, raws, i);
      output := ReplaceFirst(output, Sentinel(i), raws[i]);
    }
    assert raws[..|raws|] == raws;
  }

  lemma RestoreStep(s: string, raws: seq<string>, i: nat)
    requires i < |raws|
    ensures Restore(s, raws[..i + 1]) == ReplaceFirst(Restore(s, raws[..i]), Sentinel(i), raws[i])
  {
    hide ReplaceFirst, Sentinel;
    assert raws[..i + 1][..i] == raws[..i];
  }

  lemma NothingToRestore(s: string, raws: seq<string>)
    ensures Restore(s, raws[..0]) == s
  {
  }

  // ------------------------------------------------------------------ the pass they stand for

  /** Values go where their token stood, as data; every other character stays as it is. */
  function OnePass(s: string, ctx: Context, escape: bool): string
    decreases |s|
  {
    if s == [] then []
    else match RawMatch(s)
      case Some(m) => MergeValue(ctx, m.path) + OnePass(s[m.length..], ctx, escape)
      case None =>
        match TokenMatch(s)
        case Some(m) => Shown(ctx, m.path, escape) + OnePass(s[m.length..], ctx, escape)
        case None => [s[0]] + OnePass(s[1..], ctx, escape)
  }

  /** The same, with the raw blocks from number `from` on still sentinels. The first one has number `n`. */
  function Filled(s: string, n: nat, from: nat, ctx: Context, escape: bool): string
    decreases |s|
  {
    if s == [] then []
    else match RawMatch(s)
      case Some(m) =>
        (if n < from then MergeValue(ctx, m.path) else Sentinel(n)) + Filled(s[m.length..], n + 1, from, ctx, escape)
      case None =>
        match TokenMatch(s)
        case Some(m) => Shown(ctx, m.path, escape) + Filled(s[m.length..], n, from, ctx, escape)
        case None => [s[0]] + Filled(s[1..], n, from, ctx, escape)
  }
}
