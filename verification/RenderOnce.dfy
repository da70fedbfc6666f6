/** Rendering through sentinels is the same as rendering once, unless a NUL stands before a raw block. */
module RenderOnce {
  import opened Prelude
  import opened Renderer

  /** Text a run of spaces or of path characters cannot run into, and that does not close a token. */
  predicate Stops(t: string) {
    t == [] || (!Space(t[0]) && !PathChar(t[0]) && t[0] != '}')
  }

  lemma {:induction false} RunStops(p: char -> bool, x: string, t: string)
    requires t == [] || !p(t[0])
    ensures Run(p, x + t) == Run(p, x)
  {
    if x == [] {
      assert x + t == t;
    } else {
      assert (x + t)[1..] == x[1..] + t;
      RunStops(p, x[1..], t);
    }
  }

  lemma DropConcat(x: string, t: string, i: nat)
    requires i <= |x|
    ensures (x + t)[i..] == x[i..] + t && (x + t)[..i] == x[..i]
  {
  }

  lemma InnerStops(x: string, t: string)
    requires Stops(t)
    ensures Inner(x + t) == Inner(x)
  {
    StopsRuns(t);
    hide Stops, Space, PathChar, Run;
    var i := Run(Space, x);
    var word := x[i..];
    var j := Run(PathChar, word);
    RunStops(Space, x, t);
    DropConcat(x, t, i);
    RunStops(PathChar, word, t);
    DropConcat(word, t, j);
    RunStops(Space, word[j..], t);
  }

  lemma StopsRuns(t: string)
    requires Stops(t)
    ensures t == [] || (!Space(t[0]) && !PathChar(t[0]))
  {
  }

  lemma PrefixStops(x: string, t: string, s: string)
    requires s != [] && (t == [] || t[0] !in s)
    ensures s <= x + t <==> s <= x
  {
    if |s| <= |x| {
      assert (x + t)[..|s|] == x[..|s|];
    } else if t != [] {
      assert s[|x|] in s && (x + t)[|x|] == t[0];
    }
  }

  lemma ClosingStops(x: string, t: string)
    requires Stops(t)
    ensures Closing(x + t) == Closing(x)
  {
    PrefixStops(x, t, "}}}");
    PrefixStops(x, t, "}}");
  }

  lemma OpeningStops(x: string, t: string)
    requires |x| >= 3
    ensures Opening(x + t) == Opening(x) <= |x|
  {
    DropConcat(x, t, 3);
    assert (x + t)[..2] == x[..2];
  }

  /** A token that begins in `x` is decided by `x`: it cannot reach into what follows. */
  lemma TokenStops(x: string, t: string)
    requires |x| >= 3 && Stops(t)
    ensures TokenMatch(x + t) == TokenMatch(x)
  {
    hide Stops, Opening, Closing, Inner;
    OpeningStops(x, t);
    var a := Opening(x);
    if a > 0 {
      DropConcat(x, t, a);
      InnerStops(x[a..], t);
      var m := Inner(x[a..]);
      if m.Some? {
        DropConcat(x, t, a + m.value.length);
        ClosingStops(x[a + m.value.length..], t);
      }
    }
  }

  /** How much of the text stands before its first raw block. */
  function Plain(s: string): (k: nat)
    ensures k <= |s|
  {
    if s == [] || RawMatch(s).Some? then 0 else 1 + Plain(s[1..])
  }

  lemma {:induction false} AfterPlain(s: string)
    ensures s[Plain(s)..] == [] || RawMatch(s[Plain(s)..]).Some?
  {
    if s != [] && RawMatch(s).None? {
      AfterPlain(s[1..]);
      assert s[1..][Plain(s[1..])..] == s[Plain(s)..];
    }
  }

  /** The first pass copies what stands before a raw block. */
  lemma {:induction false} PlainIsCopied(s: string, n: nat, ctx: Context, k: nat)
    requires k <= Plain(s)
    ensures RawPass(s, n, ctx).output == s[..k] + RawPass(s[k..], n, ctx).output
    ensures RawPass(s, n, ctx).raws == RawPass(s[k..], n, ctx).raws
    decreases k
  {
    hide RawPass, Plain, RawMatch;
    if k == 0 {
      assert s[0..] == s && s[..0] + RawPass(s, n, ctx).output == RawPass(s, n, ctx).output;
    } else {
      PlainStep(s, n, ctx);
      PlainIsCopied(s[1..], n, ctx, k - 1);
      CutStep(s, k);
    }
  }

  lemma PlainStep(s: string, n: nat, ctx: Context)
    requires Plain(s) > 0
    ensures s != [] && Plain(s) == 1 + Plain(s[1..])
    ensures RawPass(s, n, ctx).output == [s[0]] + RawPass(s[1..], n, ctx).output
    ensures RawPass(s, n, ctx).raws == RawPass(s[1..], n, ctx).raws
  {
  }

  lemma CutStep(s: string, k: nat)
    requires 1 <= k <= |s|
    ensures s[1..][k - 1..] == s[k..] && [s[0]] + s[1..][..k - 1] == s[..k]
  {
  }

  /** What the first pass leaves behind a plain stretch is the end, or a sentinel. */
  lemma RawOutputStops(u: string, n: nat, ctx: Context)
    requires u == [] || RawMatch(u).Some?
    ensures Stops(u) && Stops(RawPass(u, n, ctx).output)
    ensures u != [] ==> "{{{" <= u && RawPass(u, n, ctx).output != [] && RawPass(u, n, ctx).output[0] == NUL
  {
    hide Inner;
  }

  /** Two braces or fewer before a raw block are never a token, nor before a sentinel. */
  lemma ShortOfToken(x: string, t: string)
    requires |x| <= 2 && t != [] && (t[0] == NUL || ("{{{" <= t && x != []))
    ensures TokenMatch(x + t).None?
  {
    var s := x + t;
    var a := Opening(s);
    if a > 0 {
      assert a >= |x|;
      if t[0] == NUL {
        assert s[|x|] == NUL;
        assert a == |x| && s[a..] == t;
        assert Run(Space, t) == 0;
        assert t[0..] == t;
      } else {
        assert s[a] == '{';
        var r := s[a..];
        assert r[0] == '{' && Run(Space, r) == 0 && r[0..] == r;
      }
    }
  }

  lemma NothingLeft(n: nat, ctx: Context)
    ensures RawPass([], n, ctx) == Extracted([], [])
  {
  }

  /** The first pass neither makes nor breaks a token. */
  lemma SameToken(s: string, n: nat, ctx: Context)
    requires s != [] && RawMatch(s).None?
    ensures TokenMatch(RawPass(s, n, ctx).output) == TokenMatch(s)
    ensures TokenMatch(s).Some? ==> TokenMatch(s).value.length <= Plain(s)
  {
    hide RawPass, RawMatch, TokenMatch, Stops;
    var k := Plain(s);
    var x, u := s[..k], s[k..];
    var t := RawPass(u, n, ctx).output;
    AfterPlain(s);
    PlainIsCopied(s, n, ctx, k);
    RawOutputStops(u, n, ctx);
    hide *;
    assert s == x + u;
    if u == [] {
      NothingLeft(n, ctx);
      assert x + t == s;
    } else if k >= 3 {
      TokenStops(x, u);
      TokenStops(x, t);
    } else {
      ShortOfToken(x, u);
      ShortOfToken(x, t);
    }
  }

  // ------------------------------------------------------------------------ the two passes

  lemma NoTokenHere(c: char, rest: string, ctx: Context, escape: bool)
    requires c != '{'
    ensures TokenPass([c] + rest, ctx, escape) == [c] + TokenPass(rest, ctx, escape)
  {
    assert TokenMatch([c] + rest).None?;
    hide TokenMatch;
    assert ([c] + rest)[1..] == rest;
  }

  lemma {:induction false} NoBraceNoToken(a: string, b: string, ctx: Context, escape: bool)
    requires '{' !in a
    ensures TokenPass(a + b, ctx, escape) == a + TokenPass(b, ctx, escape)
    decreases |a|
  {
    hide TokenPass;
    if a == [] {
      assert a + b == b;
    } else {
      assert a + b == [a[0]] + (a[1..] + b);
      NoTokenHere(a[0], a[1..] + b, ctx, escape);
      NoBraceNoToken(a[1..], b, ctx, escape);
    }
  }

  lemma {:induction false} DecimalIsDigits(n: nat)
    ensures forall i :: 0 <= i < |Decimal(n)| ==> '0' <= Decimal(n)[i] <= '9'
  {
    if n >= 10 {
      DecimalIsDigits(n / 10);
    }
  }

  lemma SentinelHasNoBrace(n: nat)
    ensures '{' !in Sentinel(n) && Sentinel(n) != [] && Sentinel(n)[0] == NUL
  {
    DecimalIsDigits(n);
  }

  /** After two passes, values stand where tokens stood, and sentinels where raw blocks did. */
  lemma {:induction false} TwoPassesFill(s: string, n: nat, ctx: Context, escape: bool)
    ensures TokenPass(RawPass(s, n, ctx).output, ctx, escape) == Filled(s, n, n, ctx, escape)
    decreases |s|
  {
    if s != [] {
      match RawMatch(s) {
        case Some(m) =>
          TwoPassesFill(s[m.length..], n + 1, ctx, escape);
          FilledFrom(s[m.length..], n + 1, n, ctx, escape);
          SentinelHasNoBrace(n);
          NoBraceNoToken(Sentinel(n), RawPass(s[m.length..], n + 1, ctx).output, ctx, escape);
        case None =>
          PlainFills(s, n, ctx, escape);
      }
    }
  }

  lemma {:induction false} PlainFills(s: string, n: nat, ctx: Context, escape: bool)
    requires s != [] && RawMatch(s).None?
    ensures TokenPass(RawPass(s, n, ctx).output, ctx, escape) == Filled(s, n, n, ctx, escape)
    decreases |s|, 0
  {
    SameToken(s, n, ctx);
    var len := if TokenMatch(s).Some? then TokenMatch(s).value.length else 1;
    assert Plain(s) >= 1;
    PlainIsCopied(s, n, ctx, len);
    var rest := RawPass(s[len..], n, ctx).output;
    var output := RawPass(s, n, ctx).output;
    assert output == s[..len] + rest && output[len..] == rest && output[0] == s[0];
    TwoPassesFill(s[len..], n, ctx, escape);
    hide RawPass, RawMatch, TokenMatch;
  }

  /** Blocks numbered from `n` on are all still sentinels, whatever smaller number they are kept from. */
  lemma {:induction false} FilledFrom(s: string, n: nat, from: nat, ctx: Context, escape: bool)
    requires from <= n
    ensures Filled(s, n, from, ctx, escape) == Filled(s, n, n, ctx, escape)
    decreases |s|
  {
    if s != [] {
      match RawMatch(s) {
        case Some(m) =>
          FilledFrom(s[m.length..], n + 1, from, ctx, escape);
          FilledFrom(s[m.length..], n + 1, n, ctx, escape);
        case None =>
          var len := if TokenMatch(s).Some? then TokenMatch(s).value.length else 1;
          FilledFrom(s[len..], n, from, ctx, escape);
      }
    }
  }

  // --------------------------------------------------------------- the sentinels go back

  lemma {:induction false} SkipsClean(a: string, b: string, token: string, value: string)
    requires NUL !in a && token != [] && token[0] == NUL
    ensures ReplaceFirst(a + b, token, value) == a + ReplaceFirst(b, token, value)
    decreases |a|
  {
    if a == [] {
      assert a + b == b;
    } else {
      assert (a + b)[0] == a[0] != token[0];
      assert (a + b)[1..] == a[1..] + b;
      SkipsClean(a[1..], b, token, value);
    }
  }

  lemma ShownIsClean(ctx: Context, path: string, escape: bool)
    ensures NUL !in Shown(ctx, path, escape)
  {
    EscapeKeepsNulOut(MergeValue(ctx, path));
  }

  /** Every raw block of the text stands before the first NUL in it. */
  ghost predicate NoBlockAfterNul(s: string) {
    forall i, j :: 0 <= i < j < |s| && s[i] == NUL ==> RawMatch(s[j..]).None?
  }

  lemma SuffixNoBlockAfterNul(s: string, k: nat)
    requires NoBlockAfterNul(s) && k <= |s|
    ensures NoBlockAfterNul(s[k..])
  {
    hide RawMatch;
    var t := s[k..];
    forall i, j | 0 <= i < j < |t| && t[i] == NUL ensures RawMatch(t[j..]).None? {
      assert t[i] == s[k + i] && t[j..] == s[k + j..];
    }
  }

  lemma {:induction false} KeptFromABlock(s: string, n: nat, ctx: Context) returns (j: nat)
    requires RawPass(s, n, ctx).raws != []
    ensures j < |s| && RawMatch(s[j..]).Some?
  {
    hide RawMatch;
    if RawMatch(s).Some? {
      j := 0;
      assert s[0..] == s;
    } else {
      j := KeptFromABlock(s[1..], n, ctx);
      assert s[1..][j..] == s[j + 1..];
      j := j + 1;
    }
  }

  /** While a block is still to come there is no NUL. */
  lemma NoNulYet(s: string, n: nat, ctx: Context)
    requires NoBlockAfterNul(s)
    ensures RawPass(s, n, ctx).raws != [] && RawMatch(s).None? ==> s != [] && s[0] != NUL
  {
    if RawPass(s, n, ctx).raws != [] && RawMatch(s).None? {
      assert s[0..] == s;
      var j := KeptFromABlock(s, n, ctx);
      hide RawMatch, RawPass;
      assert j > 0;
    }
  }

  /** Replacing the first sentinel that is left puts the value where its block stood. */
  lemma {:induction false} RestoresOne(s: string, n: nat, i: nat, ctx: Context, escape: bool)
    requires NoBlockAfterNul(s) && n <= i
    ensures i < n + |RawPass(s, n, ctx).raws| ==>
      ReplaceFirst(Filled(s, n, i, ctx, escape), Sentinel(i), RawPass(s, n, ctx).raws[i - n])
      == Filled(s, n, i + 1, ctx, escape)
    decreases |s|, 1
  {
    hide *;
    match RawMatch(s) {
      case Some(m) =>
        if n == i {
          RestoresHere(s, m, n, ctx, escape);
        } else {
          RestoresPast(s, m, n, i, ctx, escape);
        }
      case None => RestoresLater(s, n, i, ctx, escape);
    }
  }

  lemma RestoresHere(s: string, m: Hit, n: nat, ctx: Context, escape: bool)
    requires RawMatch(s) == Some(m)
    ensures RawPass(s, n, ctx).raws != []
    ensures ReplaceFirst(Filled(s, n, n, ctx, escape), Sentinel(n), RawPass(s, n, ctx).raws[0])
            == Filled(s, n, n + 1, ctx, escape)
  {
    hide RawMatch, Sentinel;
    var rest := s[m.length..];
    FilledFrom(rest, n + 1, n, ctx, escape);
    var after := Filled(rest, n + 1, n, ctx, escape);
    assert Filled(s, n, n, ctx, escape) == Sentinel(n) + after;
    assert (Sentinel(n) + after)[|Sentinel(n)|..] == after;
  }

  lemma PastStep(s: string, m: Hit, n: nat, i: nat, ctx: Context, escape: bool)
    requires RawMatch(s) == Some(m) && n < i
    ensures
      var rest, value := s[m.length..], MergeValue(ctx, m.path);
      && RawPass(s, n, ctx).raws == [value] + RawPass(rest, n + 1, ctx).raws
      && Filled(s, n, i, ctx, escape) == value + Filled(rest, n + 1, i, ctx, escape)
      && Filled(s, n, i + 1, ctx, escape) == value + Filled(rest, n + 1, i + 1, ctx, escape)
  {
    hide RawMatch, MergeValue;
  }

  lemma RestoresPast(s: string, m: Hit, n: nat, i: nat, ctx: Context, escape: bool)
    requires NoBlockAfterNul(s) && n < i && RawMatch(s) == Some(m)
    ensures i < n + |RawPass(s, n, ctx).raws| ==>
      ReplaceFirst(Filled(s, n, i, ctx, escape), Sentinel(i), RawPass(s, n, ctx).raws[i - n])
      == Filled(s, n, i + 1, ctx, escape)
    decreases |s|, 0
  {
    hide *;
    var rest, value := s[m.length..], MergeValue(ctx, m.path);
    var later := RawPass(rest, n + 1, ctx).raws;
    PastStep(s, m, n, i, ctx, escape);
    SentinelHasNoBrace(i);
    SuffixNoBlockAfterNul(s, m.length);
    RestoresOne(rest, n + 1, i, ctx, escape);
    if i - n - 1 < |later| {
      SkipsClean(value, Filled(rest, n + 1, i, ctx, escape), Sentinel(i), later[i - n - 1]);
    }
  }

  lemma {:induction false} RestoresLater(s: string, n: nat, i: nat, ctx: Context, escape: bool)
    requires NoBlockAfterNul(s) && n <= i && RawMatch(s).None?
    ensures i < n + |RawPass(s, n, ctx).raws| ==>
      ReplaceFirst(Filled(s, n, i, ctx, escape), Sentinel(i), RawPass(s, n, ctx).raws[i - n])
      == Filled(s, n, i + 1, ctx, escape)
    decreases |s|, 0
  {
    NoNulYet(s, n, ctx);
    var raws := RawPass(s, n, ctx).raws;
    if i < n + |raws| {
      SameToken(s, n, ctx);
      assert Plain(s) >= 1;
      SentinelHasNoBrace(i);
      var len := if TokenMatch(s).Some? then TokenMatch(s).value.length else 1;
      var shown := if TokenMatch(s).Some? then Shown(ctx, TokenMatch(s).value.path, escape) else [s[0]];
      if TokenMatch(s).Some? { ShownIsClean(ctx, TokenMatch(s).value.path, escape); }
      PlainIsCopied(s, n, ctx, len);
      SuffixNoBlockAfterNul(s, len);
      hide NoBlockAfterNul;
      RestoresOne(s[len..], n, i, ctx, escape);
      SkipsClean(shown, Filled(s[len..], n, i, ctx, escape), Sentinel(i), raws[i - n]);
    }
  }

  lemma {:induction false} RestoresAll(s: string, k: nat, ctx: Context, escape: bool)
    requires NoBlockAfterNul(s)
    ensures k <= |RawPass(s, 0, ctx).raws| ==>
      Restore(Filled(s, 0, 0, ctx, escape), RawPass(s, 0, ctx).raws[..k]) == Filled(s, 0, k, ctx, escape)
  {
    var raws := RawPass(s, 0, ctx).raws;
    if 0 < k <= |raws| {
      assert raws[..k][..k - 1] == raws[..k - 1];
      RestoresAll(s, k - 1, ctx, escape);
      RestoresOne(s, 0, k - 1, ctx, escape);
    }
  }

  lemma {:induction false} FilledUp(s: string, n: nat, from: nat, ctx: Context, escape: bool)
    requires n + |RawPass(s, n, ctx).raws| <= from
    ensures Filled(s, n, from, ctx, escape) == OnePass(s, ctx, escape)
    decreases |s|
  {
    hide RawMatch, TokenMatch, MergeValue, Shown;
    if s != [] {
      match RawMatch(s) {
        case Some(m) => FilledUp(s[m.length..], n + 1, from, ctx, escape);
        case None =>
          SameToken(s, n, ctx);
          var len := if TokenMatch(s).Some? then TokenMatch(s).value.length else 1;
          PlainIsCopied(s, n, ctx, len);
          FilledUp(s[len..], n, from, ctx, escape);
      }
    }
  }

  /**
   * The sentinels are invisible, with any values, for every template that has no raw block after a NUL:
   * one without NUL, one without raw blocks, and one whose NULs all come later than its last raw block.
   */
  lemma RendersOnce(template: string, ctx: Context, escape: bool)
    requires NoBlockAfterNul(template)
    ensures TwoPass(template, ctx, escape) == OnePass(template, ctx, escape)
  {
    var raws := RawPass(template, 0, ctx).raws;
    TwoPassesFill(template, 0, ctx, escape);
    RestoresAll(template, |raws|, ctx, escape);
    assert raws[..|raws|] == raws;
    FilledUp(template, 0, |raws|, ctx, escape);
  }

  lemma NoBraceHere(c: char, rest: string, n: nat, ctx: Context, escape: bool)
    requires c != '{'
    ensures RawPass([c] + rest, n, ctx) == Extracted([c] + RawPass(rest, n, ctx).output, RawPass(rest, n, ctx).raws)
    ensures OnePass([c] + rest, ctx, escape) == [c] + OnePass(rest, ctx, escape)
  {
    assert RawMatch([c] + rest).None? && TokenMatch([c] + rest).None?;
    hide RawMatch, TokenMatch;
    assert ([c] + rest)[1..] == rest;
  }

  lemma {:induction false} NoBraceCopied(a: string, b: string, n: nat, ctx: Context, escape: bool)
    requires '{' !in a
    ensures RawPass(a + b, n, ctx) == Extracted(a + RawPass(b, n, ctx).output, RawPass(b, n, ctx).raws)
    ensures OnePass(a + b, ctx, escape) == a + OnePass(b, ctx, escape)
    decreases |a|
  {
    hide RawPass, OnePass;
    if a == [] {
      assert a + b == b;
    } else {
      assert a + b == [a[0]] + (a[1..] + b);
      NoBraceHere(a[0], a[1..] + b, n, ctx, escape);
      NoBraceCopied(a[1..], b, n, ctx, escape);
    }
  }

  /**
   * Where the template itself holds NUL, the two part: a sentinel written ahead of a raw block takes its value,
   * and the block keeps the bare sentinel.
   */
  lemma NulMovesValue(block: string, ctx: Context, escape: bool)
    requires RawMatch(block).Some? && RawMatch(block).value.length == |block|
    requires MergeValue(ctx, RawMatch(block).value.path) != []
    ensures
      var template, value := Sentinel(0) + block, MergeValue(ctx, RawMatch(block).value.path);
      && TwoPass(template, ctx, escape) == value + Sentinel(0)
      && OnePass(template, ctx, escape) == Sentinel(0) + value
      && TwoPass(template, ctx, escape) != OnePass(template, ctx, escape)
  {
    var mark, value := Sentinel(0), MergeValue(ctx, RawMatch(block).value.path);
    hide *;
    SentinelHasNoBrace(0);
    NoBraceCopied(mark, block, 0, ctx, escape);
    LoneBlock(block, ctx, escape);
    MarksRestored(mark, value, ctx, escape);
    TwoPassOf(mark + block, mark + mark, [value], ctx, escape);
    assert (value + mark)[0] == value[0] && value[0] in value;
  }

  lemma {:induction false} RunOfAll(p: char -> bool, x: string, t: string)
    requires (forall i :: 0 <= i < |x| ==> p(x[i])) && (t == [] || !p(t[0]))
    ensures Run(p, x + t) == |x|
  {
    if x == [] {
      assert x + t == t;
    } else {
      assert (x + t)[1..] == x[1..] + t;
      RunOfAll(p, x[1..], t);
    }
  }

  /** Three braces around a path are a raw block. */
  lemma BracedIsBlock(path: string)
    requires path != [] && forall i :: 0 <= i < |path| ==> PathChar(path[i])
    ensures RawMatch("{{{" + path + "}}}") == Some(Hit(path, |path| + 6))
  {
    var tail := "}}}";
    var s := "{{{" + path + tail;
    assert s[..3] == "{{{" && s[3..] == path + tail;
    assert PathChar(path[0]);
    assert Run(Space, path + tail) == 0;
    RunOfAll(PathChar, path, tail);
    assert (path + tail)[0..] == path + tail;
    assert (path + tail)[..|path|] == path && (path + tail)[|path|..] == tail;
    assert Run(Space, tail) == 0;
    assert s[3 + |path|..] == tail;
  }

  lemma TheLink(ctx: Context)
    requires ctx.unsubscribeUrl == Some("u")
    ensures MergeValue(ctx, "unsubscribe_url") == "u"
  {
    assert "u"[1..] == [];
    assert StripNul("u") == "u";
  }

  lemma FirstSentinel()
    ensures Sentinel(0) == [NUL, 'R', 'A', 'W', '0', NUL]
  {
  }

  /** One such template: its sentinel turns into the address, and the block turns into the sentinel. */
  lemma NulMovesTheLink()
    ensures
      var template := Sentinel(0) + ("{{{" + "unsubscribe_url" + "}}}");
      var ctx := Context(map[], None, Some("u"), None);
      && TwoPass(template, ctx, true) == "u" + Sentinel(0)
      && OnePass(template, ctx, true) == Sentinel(0) + "u"
      && Sentinel(0) == [NUL, 'R', 'A', 'W', '0', NUL]
  {
    BracedIsBlock("unsubscribe_url");
    FirstSentinel();
    hide *;
    TheLink(Context(map[], None, Some("u"), None));
    NulMovesValue("{{{" + "unsubscribe_url" + "}}}", Context(map[], None, Some("u"), None), true);
  }

  /** A template that is one raw block. */
  lemma LoneBlock(block: string, ctx: Context, escape: bool)
    requires RawMatch(block).Some? && RawMatch(block).value.length == |block|
    ensures
      var value := MergeValue(ctx, RawMatch(block).value.path);
      && RawPass(block, 0, ctx) == Extracted(Sentinel(0), [value])
      && OnePass(block, ctx, escape) == value
  {
    hide RawMatch, MergeValue, Sentinel;
    assert block[|block|..] == [];
    assert Sentinel(0) + [] == Sentinel(0);
  }

  /** Of two equal sentinels the first is the one that is replaced. */
  lemma MarksRestored(mark: string, value: string, ctx: Context, escape: bool)
    requires mark == Sentinel(0) && '{' !in mark
    ensures Restore(TokenPass(mark + mark, ctx, escape), [value]) == value + mark
  {
    hide Sentinel, TokenPass;
    NoBraceNoToken(mark + mark, [], ctx, escape);
    NothingToPass(ctx, escape);
    assert mark + mark + [] == mark + mark;
    var raws: seq<string> := [value];
    assert raws[..0] == [];
    assert Restore(mark + mark, raws) == ReplaceFirst(mark + mark, mark, value);
    assert (mark + mark)[|mark|..] == mark;
  }

  lemma NothingToPass(ctx: Context, escape: bool)
    ensures TokenPass([], ctx, escape) == []
  {
  }

  lemma TwoPassOf(template: string, output: string, raws: seq<string>, ctx: Context, escape: bool)
    requires RawPass(template, 0, ctx) == Extracted(output, raws)
    ensures TwoPass(template, ctx, escape) == Restore(TokenPass(output, ctx, escape), raws)
  {
    hide RawPass, TokenPass, Restore;
  }
}
