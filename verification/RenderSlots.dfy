/** What a rendered template says: its words as they are, and in each slot the value that the slot names. */
module RenderSlots {
  import opened Prelude
  import opened Renderer
  import opened RenderOnce

  /** What a slot may name. `tail` is whatever stands behind a second dot: it is not looked at. */
  datatype Ref =
    | UnsubscribeUrl
    | PreferencesUrl
    | ContactField(key: string, tail: string)
    | OrderField(key: string, tail: string)
    | Unlisted(path: string)

  function PathOf(ref: Ref): string {
    match ref
    case UnsubscribeUrl => "unsubscribe_url"
    case PreferencesUrl => "preferences_url"
    case ContactField(key, tail) => "contact." + key + tail
    case OrderField(key, tail) => "order." + key + tail
    case Unlisted(path) => path
  }

  predicate Letter(c: char) {
    'a' <= c <= 'z' || 'A' <= c <= 'Z' || '0' <= c <= '9' || c == '_'
  }

  /** The white space of JavaScript's regular expressions, by code point. */
  predicate BlankChar(c: char) {
    c as int in {0x9, 0xA, 0xB, 0xC, 0xD, 0x20, 0xA0, 0x1680,
                 0x2000, 0x2001, 0x2002, 0x2003, 0x2004, 0x2005, 0x2006, 0x2007, 0x2008, 0x2009, 0x200A,
                 0x2028, 0x2029, 0x202F, 0x205F, 0x3000, 0xFEFF}
  }

  predicate Word(s: string) {
    s != [] && forall i :: 0 <= i < |s| ==> Letter(s[i])
  }

  predicate Tail(s: string) {
    s == [] || (s[0] == '.' && forall i :: 0 <= i < |s| ==> Letter(s[i]) || s[i] == '.')
  }

  predicate Blank(s: string) {
    forall i :: 0 <= i < |s| ==> BlankChar(s[i])
  }

  /** The path has a first part and a second one, neither of them empty. */
  predicate Listed(path: string, root: string) {
    root + "." <= path && |path| > |root| + 1 && path[|root| + 1] != '.'
  }

  predicate IsRef(ref: Ref) {
    match ref
    case UnsubscribeUrl => true
    case PreferencesUrl => true
    case ContactField(key, tail) => Word(key) && Tail(tail)
    case OrderField(key, tail) => Word(key) && Tail(tail)
    case Unlisted(path) =>
      && path != [] && (forall i :: 0 <= i < |path| ==> Letter(path[i]) || path[i] == '.')
      && path != "unsubscribe_url" && path != "preferences_url" && !Listed(path, "contact") && !Listed(path, "order")
  }

  /** The value the context has for it. */
  function Named(ctx: Context, ref: Ref): Option<string> {
    match ref
    case UnsubscribeUrl => ctx.unsubscribeUrl
    case PreferencesUrl => ctx.preferencesUrl
    case ContactField(key, _) => if key in ctx.contact then Some(ctx.contact[key]) else None
    case OrderField(key, _) => if ctx.order.Some? && key in ctx.order.value then Some(ctx.order.value[key]) else None
    case Unlisted(_) => None
  }

  /** The text without its NULs. */
  function Kept(s: string): string {
    if s == [] then []
    else if s[|s| - 1] == NUL then Kept(s[..|s| - 1])
    else Kept(s[..|s| - 1]) + [s[|s| - 1]]
  }

  function Value(ctx: Context, ref: Ref): string {
    match Named(ctx, ref)
    case Some(v) => Kept(v)
    case None => ""
  }

  lemma {:induction false} StripNulAppend(s: string, c: char)
    ensures StripNul(s + [c]) == StripNul(s) + (if c == NUL then [] else [c])
  {
    if s == [] {
      assert s + [c] == [c] && [c][1..] == [];
    } else {
      assert (s + [c])[1..] == s[1..] + [c];
      StripNulAppend(s[1..], c);
    }
  }

  lemma {:induction false} KeptIsStripped(s: string)
    ensures Kept(s) == StripNul(s)
  {
    if s != [] {
      var n := |s| - 1;
      assert s == s[..n] + [s[n]];
      KeptIsStripped(s[..n]);
      StripNulAppend(s[..n], s[n]);
    }
  }

  // ------------------------------------------------------------------------- paths

  lemma {:induction false} UpToDotOf(x: string, t: string)
    requires '.' !in x && (t == [] || t[0] == '.')
    ensures UpToDot(x + t) == x
  {
    if x == [] {
      assert x + t == t;
    } else {
      assert (x + t)[1..] == x[1..] + t;
      UpToDotOf(x[1..], t);
    }
  }

  lemma LettersArePath(c: char)
    requires Letter(c)
    ensures PathChar(c) && !Space(c) && c != '.' && c != '}' && c != '{' && c != NUL
  {
  }

  lemma BlanksAreSpace(c: char)
    requires BlankChar(c)
    ensures Space(c) && !PathChar(c) && c != '}' && c != '{' && c != NUL
  {
  }

  lemma WordHasNoDot(s: string)
    requires Word(s)
    ensures '.' !in s
  {
    forall i | 0 <= i < |s| ensures s[i] != '.' {
      LettersArePath(s[i]);
    }
  }

  /** A path is made of path characters, and the context has for it what the slot names. */
  lemma RefIsFound(ctx: Context, ref: Ref)
    requires IsRef(ref)
    ensures PathOf(ref) != [] && forall i :: 0 <= i < |PathOf(ref)| ==> PathChar(PathOf(ref)[i])
    ensures MergeValue(ctx, PathOf(ref)) == Value(ctx, ref)
  {
    PathIsPath(ref);
    LookupFinds(ctx, ref);
    if Named(ctx, ref).Some? {
      KeptIsStripped(Named(ctx, ref).value);
    }
    hide Lookup, Named, PathOf, PathChar, StripNul, Kept, IsRef;
  }

  lemma PathIsPath(ref: Ref)
    requires IsRef(ref)
    ensures PathOf(ref) != [] && forall i :: 0 <= i < |PathOf(ref)| ==> PathChar(PathOf(ref)[i])
  {
  }

  lemma LookupFinds(ctx: Context, ref: Ref)
    requires IsRef(ref)
    ensures Lookup(ctx, PathOf(ref)) == Named(ctx, ref)
  {
    hide Word, Tail, Listed, UpToDot;
    match ref {
      case ContactField(key, tail) =>
        assert "contact" + "." == "contact.";
        FieldFound(ctx, "contact", key, tail);
        hide Lookup;
      case OrderField(key, tail) =>
        assert "order" + "." == "order.";
        FieldFound(ctx, "order", key, tail);
        hide Lookup;
      case Unlisted(path) => NothingFound(ctx, path);
      case _ =>
    }
  }

  lemma FieldFound(ctx: Context, root: string, key: string, tail: string)
    requires root == "contact" || root == "order"
    requires Word(key) && Tail(tail)
    ensures Lookup(ctx, root + "." + key + tail) ==
            if root == "contact" then Field(ctx.contact, key)
            else if ctx.order.Some? then Field(ctx.order.value, key) else None
  {
    var path := root + "." + key + tail;
    WordHasNoDot(key);
    PathSplits(root, key, tail);
    assert path[0] == root[0];
    hide UpToDot, Word, Tail;
  }

  lemma PathSplits(root: string, key: string, tail: string)
    requires '.' !in root && '.' !in key && key != [] && Tail(tail)
    ensures
      var path := root + "." + key + tail;
      && UpToDot(path) == root && |root| + 1 < |path| && UpToDot(path[|root| + 1..]) == key
  {
    hide UpToDot;
    var path := root + "." + key + tail;
    assert path == root + ("." + key + tail);
    UpToDotOf(root, "." + key + tail);
    assert path[|root| + 1..] == key + tail;
    UpToDotOf(key, tail);
  }

  lemma {:induction false} DotEnds(path: string)
    ensures UpToDot(path) <= path && '.' !in UpToDot(path)
    ensures |UpToDot(path)| < |path| ==> path[|UpToDot(path)|] == '.'
  {
    if path != [] && path[0] != '.' {
      DotEnds(path[1..]);
    }
  }

  lemma NothingFound(ctx: Context, path: string)
    requires path != "unsubscribe_url" && path != "preferences_url" && !Listed(path, "contact") && !Listed(path, "order")
    ensures Lookup(ctx, path) == None
  {
    DotEnds(path);
    var root := UpToDot(path);
    if |root| + 1 < |path| {
      assert path[|root| + 1..][0] == path[|root| + 1];
      assert path[..|root| + 1] == root + ".";
    }
  }

  // ------------------------------------------------------------------------ templates

  /** A merge field may have a third brace on one side; with one on both it is a raw block. */
  datatype Extra = NoBrace | BraceBefore | BraceBehind

  /**
   * A template is words and slots: two braces for a merge field, three for a raw block, blanks where one likes.
   * Two braces are no slot when something else than a path and the closing braces stands behind them.
   */
  datatype Piece =
    | Words(text: string)
    | Stray(left: string, name: string, right: string, other: char)
    | Merge(extra: Extra, left: string, ref: Ref, right: string)
    | Block(left: string, ref: Ref, right: string)

  const TWO_OPEN := "{{"
  const TWO_CLOSE := "}}"
  const THREE_OPEN := "{{{"
  const THREE_CLOSE := "}}}"

  function Spelled(p: Piece): string {
    match p
    case Words(text) => text
    case Stray(left, name, right, other) => TWO_OPEN + (left + name + right) + [other]
    case Merge(NoBrace, left, ref, right) => TWO_OPEN + (left + PathOf(ref) + right) + TWO_CLOSE
    case Merge(BraceBefore, left, ref, right) => THREE_OPEN + (left + PathOf(ref) + right) + TWO_CLOSE
    case Merge(BraceBehind, left, ref, right) => TWO_OPEN + (left + PathOf(ref) + right) + THREE_CLOSE
    case Block(left, ref, right) => THREE_OPEN + (left + PathOf(ref) + right) + THREE_CLOSE
  }

  /** Joined end to end. */
  function Joined(parts: seq<string>): string {
    if parts == [] then [] else parts[0] + Joined(parts[1..])
  }

  function Template(ps: seq<Piece>): string {
    Joined(seq(|ps|, i requires 0 <= i < |ps| => Spelled(ps[i])))
  }

  predicate SingleBraces(text: string) {
    forall i :: 0 <= i < |text| && text[i] == '{' ==> i + 1 < |text| && text[i + 1] != '{'
  }

  lemma SingleBracesOn(text: string)
    requires SingleBraces(text) && text != []
    ensures SingleBraces(text[1..])
  {
    forall i | 0 <= i < |text[1..]| && text[1..][i] == '{' ensures i + 1 < |text[1..]| && text[1..][i + 1] != '{' {
      assert text[i + 1] == '{' && text[1..][i] == text[i + 1];
    }
  }

  /** Words may hold single braces, as a style sheet does, but no NUL, no two in a row and none at their end. */
  predicate PieceOk(p: Piece) {
    match p
    case Words(text) =>
      text != [] && NUL !in text && SingleBraces(text)
    case Stray(left, name, right, other) =>
      && Blank(left) && (forall i :: 0 <= i < |name| ==> Letter(name[i]) || name[i] == '.') && Blank(right)
      && (name == [] ==> right == [])
      && !BlankChar(other) && other !in "{}" && other != NUL && (right == [] ==> !Letter(other) && other != '.')
    case Merge(_, left, ref, right) => Blank(left) && IsRef(ref) && Blank(right)
    case Block(left, ref, right) => Blank(left) && IsRef(ref) && Blank(right)
  }

  predicate TakesABrace(p: Piece) {
    p.Merge? && !p.extra.BraceBehind?
  }

  /** Words right behind a merge field do not begin with a brace that the field would take for its own. */
  ghost predicate WellCut(ps: seq<Piece>) {
    && (forall i :: 0 <= i < |ps| ==> PieceOk(ps[i]))
    && (forall i, j :: 0 <= i < j < |ps| && j == i + 1 && TakesABrace(ps[i]) && ps[j].Words? ==>
          ps[j].text[0] != '}')
  }

  predicate Inert(s: string) {
    '<' !in s && '>' !in s && '\"' !in s && '\'' !in s
  }

  /** What stands where the piece stood. */
  predicate FilledBy(p: Piece, ctx: Context, escape: bool, out: string) {
    match p
    case Words(text) => out == text
    case Stray(_, _, _, _) => out == Spelled(p)
    case Merge(_, _, ref, _) =>
      if escape then Inert(out) && Unescape(out) == Value(ctx, ref) else out == Value(ctx, ref)
    case Block(_, ref, _) => out == Value(ctx, ref)
  }

  // --------------------------------------------------------------------- one pass over them

  predicate IsPath(path: string) {
    path != [] && forall i :: 0 <= i < |path| ==> PathChar(path[i])
  }

  /** A slot and what follows it: the opening braces, the inside, and the closing braces with the rest. */
  function Laid(open: string, left: string, path: string, right: string, t: string): string {
    open + (left + path + right) + t
  }

  function Inside(left: string, path: string, right: string, t: string): string {
    left + (path + (right + t))
  }

  function Size(left: string, path: string, right: string): nat {
    |left| + |path| + |right|
  }

  /** Where the parts of a slot stand. */
  lemma Parts(open: string, left: string, path: string, right: string, t: string)
    ensures
      var s, n := Laid(open, left, path, right, t), Size(left, path, right);
      && |s| == |open| + n + |t| && open <= s
      && s[|open|..] == Inside(left, path, right, t) && s[|open| + n..] == t
  {
  }

  lemma RunThen(p: char -> bool, x: string, t: string)
    requires (forall i :: 0 <= i < |x| ==> p(x[i])) && (t == [] || !p(t[0]))
    ensures Run(p, x + t) == |x| && (x + t)[..|x|] == x && (x + t)[|x|..] == t
  {
    RunOfAll(p, x, t);
  }

  lemma BlankRun(x: string, t: string)
    requires Blank(x) && (t == [] || !Space(t[0]))
    ensures Run(Space, x + t) == |x| && (x + t)[|x|..] == t
  {
    forall i | 0 <= i < |x| ensures Space(x[i]) { BlanksAreSpace(x[i]); }
    hide Blank, Space, Run;
    RunThen(Space, x, t);
  }

  /** What stands behind the blanks and the path ends them. */
  predicate Ends(path: string, right: string, t: string) {
    && t != [] && !Space(t[0]) && (right == [] ==> !PathChar(t[0])) && (path == [] ==> right == [])
  }

  /** Blanks, a path, blanks, and what ends them. */
  lemma InnerIs(left: string, path: string, right: string, t: string)
    requires Blank(left) && Blank(right) && (path != [] ==> IsPath(path)) && Ends(path, right, t)
    ensures Inner(Inside(left, path, right, t)) == if path == [] then None else Some(Hit(path, Size(left, path, right)))
  {
    hide Run, BlankChar;
    var rest := right + t;
    var word := path + rest;
    assert rest[0] == if right == [] then t[0] else right[0];
    assert word[0] == if path == [] then rest[0] else path[0];
    assert path != [] ==> PathChar(path[0]) && !Space(path[0]);
    assert right != [] ==> !PathChar(right[0]) by { if right != [] { BlanksAreSpace(right[0]); } }
    BlankRun(left, word);
    BlankRun(right, t);
    RunThen(PathChar, path, rest) by { assert path != [] ==> IsPath(path); }
    hide Blank, IsPath, Space, PathChar, Ends;
  }

  lemma InsideBegins(left: string, path: string, right: string, t: string)
    requires Blank(left) && (path != [] ==> IsPath(path)) && Ends(path, right, t) && (path == [] ==> t[0] != '{')
    ensures Inside(left, path, right, t) != [] && Inside(left, path, right, t)[0] != '{'
  {
    hide BlankChar;
    if left != [] { BlanksAreSpace(left[0]); } else if path != [] { assert PathChar(path[0]); }
    hide Blank, IsPath;
    assert Inside(left, path, right, t)[0] == if left != [] then left[0] else if path != [] then path[0] else t[0];
  }

  lemma OpensWithTwo(s: string, inside: string)
    requires TWO_OPEN <= s && s[|TWO_OPEN|..] == inside && inside != [] && inside[0] != '{'
    ensures |TWO_OPEN| == 2 && Opening(s) == 2 && RawMatch(s) == None
  {
    assert s[2] == inside[0];
  }

  lemma OpensWithThree(s: string)
    requires THREE_OPEN <= s
    ensures |THREE_OPEN| == 3 && |s| >= 3 && Opening(s) == 3
  {
  }

  lemma RawIs(s: string, m: Hit)
    requires THREE_OPEN <= s && |s| >= 3 && Inner(s[3..]) == Some(m) && 3 + m.length <= |s|
    ensures RawMatch(s) == if "}}}" <= s[3 + m.length..] then Some(Hit(m.path, m.length + 6)) else None
  {
    hide Inner;
  }

  lemma TokenIs(s: string, a: nat, m: Hit)
    requires a == Opening(s) > 0 && a <= |s| && Inner(s[a..]) == Some(m) && a + m.length <= |s|
    ensures
      var b := Closing(s[a + m.length..]);
      TokenMatch(s) == if b == 0 then None else Some(Hit(m.path, a + m.length + b))
  {
    hide Inner, Closing, Opening;
  }

  lemma NothingInside(s: string, a: nat)
    requires a == Opening(s) > 0 && a <= |s| && Inner(s[a..]) == None
    ensures TokenMatch(s) == None
  {
    hide Inner, Closing, Opening;
  }

  lemma ClosesWithTwo(rest: string)
    requires rest == [] || rest[0] != '}'
    ensures
      var t := TWO_CLOSE + rest;
      && t != [] && t[0] == '}' && !("}}}" <= t) && Closing(t) == 2 && |t| >= 2 && t[2..] == rest
  {
    var t := TWO_CLOSE + rest;
    assert t[2..] == rest;
    assert |t| >= 3 ==> t[2] == rest[0] != '}';
  }

  lemma ClosesWithThree(rest: string)
    ensures
      var t := THREE_CLOSE + rest;
      && t != [] && t[0] == '}' && "}}}" <= t && Closing(t) == 3 && |t| >= 3 && t[3..] == rest
  {
  }

  lemma BraceEnds(path: string, right: string, t: string)
    requires IsPath(path) && t != [] && t[0] == '}'
    ensures Ends(path, right, t)
  {
  }

  lemma Cut(s: string, k: nat, t: string, m: nat, rest: string)
    requires k <= |s| && s[k..] == t && m <= |t| && t[m..] == rest
    ensures k + m <= |s| && s[k + m..] == rest
  {
  }

  /** Two opening braces, and two closing ones, or three. */
  lemma FieldMatches(left: string, path: string, right: string, t: string, b: nat, rest: string)
    requires Blank(left) && IsPath(path) && Blank(right)
    requires t != [] && t[0] == '}' && Closing(t) == b > 0 && b <= |t| && t[b..] == rest
    ensures
      var s, n := Laid(TWO_OPEN, left, path, right, t), Size(left, path, right) + 2 + b;
      && RawMatch(s) == None && TokenMatch(s) == Some(Hit(path, n))
      && n <= |s| && s[n..] == rest
  {
    hide *;
    var s, n := Laid(TWO_OPEN, left, path, right, t), Size(left, path, right);
    PathIsSome(path);
    BraceEnds(path, right, t);
    Parts(TWO_OPEN, left, path, right, t);
    InsideBegins(left, path, right, t);
    OpensWithTwo(s, Inside(left, path, right, t));
    InnerIs(left, path, right, t);
    TokenIs(s, 2, Hit(path, n));
    Cut(s, 2 + n, t, b, rest);
  }

  lemma PathIsSome(path: string)
    requires IsPath(path)
    ensures path != []
  {
  }

  /** Three opening braces: with three closing ones a raw block, and with two a merge field all the same. */
  lemma ThreeMatch(left: string, path: string, right: string, t: string, b: nat, rest: string)
    requires Blank(left) && IsPath(path) && Blank(right)
    requires t != [] && t[0] == '}' && Closing(t) == b > 0 && b <= |t| && t[b..] == rest && ("}}}" <= t <==> b == 3)
    ensures
      var s, n := Laid(THREE_OPEN, left, path, right, t), Size(left, path, right) + 3 + b;
      && RawMatch(s) == (if b == 3 then Some(Hit(path, n)) else None)
      && TokenMatch(s) == Some(Hit(path, n))
      && n <= |s| && s[n..] == rest
  {
    hide *;
    var s, n := Laid(THREE_OPEN, left, path, right, t), Size(left, path, right);
    PathIsSome(path);
    BraceEnds(path, right, t);
    Parts(THREE_OPEN, left, path, right, t);
    OpensWithThree(s);
    InnerIs(left, path, right, t);
    assert Inner(s[3..]) == Some(Hit(path, n));
    RawIs(s, Hit(path, n));
    TokenIs(s, 3, Hit(path, n));
    Cut(s, 3 + n, t, b, rest);
  }

  lemma CharCopied(s: string, ctx: Context, escape: bool)
    requires s != [] && (s[0] == '{' ==> |s| > 1 && s[1] != '{')
    ensures OnePass(s, ctx, escape) == [s[0]] + OnePass(s[1..], ctx, escape)
  {
    assert RawMatch(s) == None && TokenMatch(s) == None;
    hide RawMatch, TokenMatch;
  }

  /** Words are copied, whatever follows them. */
  lemma {:induction false} WordsCopied(text: string, rest: string, ctx: Context, escape: bool)
    requires SingleBraces(text)
    ensures OnePass(text + rest, ctx, escape) == text + OnePass(rest, ctx, escape)
    decreases |text|
  {
    hide OnePass;
    if text == [] {
      assert text + rest == rest;
    } else {
      var s := text + rest;
      assert s[1..] == text[1..] + rest;
      CharCopied(s, ctx, escape);
      SingleBracesOn(text);
      hide SingleBraces;
      WordsCopied(text[1..], rest, ctx, escape);
    }
  }

  lemma SpaceIsBlank(c: char)
    requires Space(c)
    ensures BlankChar(c)
  {
  }

  /** No path, or not closed behind it: nothing matches. */
  lemma StrayIsNoToken(left: string, name: string, right: string, t: string)
    requires Blank(left) && (name != [] ==> IsPath(name)) && Blank(right) && Ends(name, right, t)
    requires t[0] != '{' && t[0] != '}'
    ensures
      var s := Laid(TWO_OPEN, left, name, right, t);
      s != [] && RawMatch(s) == None && TokenMatch(s) == None
  {
    var s, n := Laid(TWO_OPEN, left, name, right, t), Size(left, name, right);
    assert Closing(t) == 0;
    hide *;
    Parts(TWO_OPEN, left, name, right, t);
    InsideBegins(left, name, right, t);
    OpensWithTwo(s, Inside(left, name, right, t));
    InnerIs(left, name, right, t);
    if name == [] {
      NothingInside(s, 2);
    } else {
      TokenIs(s, 2, Hit(name, n));
    }
  }

  lemma StrayEnds(left: string, name: string, right: string, other: char, rest: string)
    requires PieceOk(Stray(left, name, right, other))
    ensures Blank(left) && (name != [] ==> IsPath(name)) && Blank(right) && Ends(name, right, [other] + rest)
  {
    if Space(other) { SpaceIsBlank(other); }
    hide BlankChar, Space;
  }

  lemma StrayCopied(left: string, name: string, right: string, other: char, rest: string, ctx: Context, escape: bool)
    requires PieceOk(Stray(left, name, right, other))
    ensures OnePass(TWO_OPEN + (left + name + right) + [other] + rest, ctx, escape) ==
            TWO_OPEN + (left + name + right) + [other] + OnePass(rest, ctx, escape)
  {
    var inside, t := left + name + right, [other] + rest;
    assert t[0] == other;
    StrayEnds(left, name, right, other, rest);
    NoBraceInside(left, name, right, other);
    StrayIsNoToken(left, name, right, t);
    assert TWO_OPEN + inside + t == Laid(TWO_OPEN, left, name, right, t);
    hide PieceOk, OnePass, Laid, Ends, IsPath, Blank, RawMatch, TokenMatch;
    Closed(TWO_OPEN, inside, [other], rest);
    StrayTail(inside, other, rest, TWO_OPEN + inside + t, ctx, escape);
  }

  lemma NoBraceInside(left: string, name: string, right: string, other: char)
    requires PieceOk(Stray(left, name, right, other))
    ensures '{' !in left + name + right + [other]
  {
    hide BlankChar;
    forall c | c in left || c in right ensures c != '{' { BlanksAreSpace(c); }
  }

  /** The first brace is copied, and what is left are words. */
  lemma StrayTail(inside: string, other: char, rest: string, s: string, ctx: Context, escape: bool)
    requires s == TWO_OPEN + inside + ([other] + rest) && '{' !in inside + [other]
    requires RawMatch(s) == None && TokenMatch(s) == None
    ensures OnePass(s, ctx, escape) == TWO_OPEN + inside + [other] + OnePass(rest, ctx, escape)
  {
    var words := ['{'] + (inside + [other]);
    BraceThenWords(inside + [other]);
    SecondBrace(inside, other, rest, s);
    NothingMatched(s, ctx, escape);
    hide OnePass, RawMatch, TokenMatch, SingleBraces;
    WordsCopied(words, rest, ctx, escape);
    Rejoined(inside, other, OnePass(rest, ctx, escape));
  }

  lemma NothingMatched(s: string, ctx: Context, escape: bool)
    requires s != [] && RawMatch(s) == None && TokenMatch(s) == None
    ensures OnePass(s, ctx, escape) == [s[0]] + OnePass(s[1..], ctx, escape)
  {
    hide RawMatch, TokenMatch;
  }

  lemma SecondBrace(inside: string, other: char, rest: string, s: string)
    requires s == TWO_OPEN + inside + ([other] + rest)
    ensures s != [] && s[0] == '{' && s[1..] == ['{'] + (inside + [other]) + rest
  {
  }

  lemma Rejoined(inside: string, other: char, rest: string)
    ensures ['{'] + (['{'] + (inside + [other]) + rest) == TWO_OPEN + inside + [other] + rest
  {
  }

  lemma BraceThenWords(x: string)
    requires x != [] && '{' !in x
    ensures SingleBraces(['{'] + x)
  {
    var words := ['{'] + x;
    assert words[1] == x[0];
    assert forall i :: 0 < i < |words| ==> words[i] == x[i - 1];
  }

  function Fill(p: Piece, ctx: Context, escape: bool): string {
    match p
    case Words(text) => text
    case Stray(_, _, _, _) => Spelled(p)
    case Merge(_, _, ref, _) => Shown(ctx, PathOf(ref), escape)
    case Block(_, ref, _) => MergeValue(ctx, PathOf(ref))
  }

  lemma FieldFills(left: string, path: string, right: string, rest: string, ctx: Context, escape: bool)
    requires Blank(left) && IsPath(path) && Blank(right) && (rest == [] || rest[0] != '}')
    ensures OnePass(Laid(TWO_OPEN, left, path, right, TWO_CLOSE + rest), ctx, escape) ==
            Shown(ctx, path, escape) + OnePass(rest, ctx, escape)
  {
    ClosesWithTwo(rest);
    hide RawMatch, TokenMatch, Blank, IsPath, Shown, MergeValue, Laid, Closing, TWO_OPEN, TWO_CLOSE;
    FieldMatches(left, path, right, TWO_CLOSE + rest, 2, rest);
  }

  lemma BeforeFills(left: string, path: string, right: string, rest: string, ctx: Context, escape: bool)
    requires Blank(left) && IsPath(path) && Blank(right) && (rest == [] || rest[0] != '}')
    ensures OnePass(Laid(THREE_OPEN, left, path, right, TWO_CLOSE + rest), ctx, escape) ==
            Shown(ctx, path, escape) + OnePass(rest, ctx, escape)
  {
    ClosesWithTwo(rest);
    hide RawMatch, TokenMatch, Blank, IsPath, Shown, MergeValue, Laid, Closing, THREE_OPEN, TWO_CLOSE;
    ThreeMatch(left, path, right, TWO_CLOSE + rest, 2, rest);
  }

  lemma BehindFills(left: string, path: string, right: string, rest: string, ctx: Context, escape: bool)
    requires Blank(left) && IsPath(path) && Blank(right)
    ensures OnePass(Laid(TWO_OPEN, left, path, right, THREE_CLOSE + rest), ctx, escape) ==
            Shown(ctx, path, escape) + OnePass(rest, ctx, escape)
  {
    ClosesWithThree(rest);
    hide RawMatch, TokenMatch, Blank, IsPath, Shown, MergeValue, Laid, Closing, TWO_OPEN, THREE_CLOSE;
    FieldMatches(left, path, right, THREE_CLOSE + rest, 3, rest);
  }

  lemma BlockFills(left: string, path: string, right: string, rest: string, ctx: Context, escape: bool)
    requires Blank(left) && IsPath(path) && Blank(right)
    ensures OnePass(Laid(THREE_OPEN, left, path, right, THREE_CLOSE + rest), ctx, escape) ==
            MergeValue(ctx, path) + OnePass(rest, ctx, escape)
  {
    ClosesWithThree(rest);
    hide RawMatch, TokenMatch, Blank, IsPath, Shown, MergeValue, Laid, Closing, THREE_OPEN, THREE_CLOSE;
    ThreeMatch(left, path, right, THREE_CLOSE + rest, 3, rest);
  }

  lemma Closed(a: string, b: string, c: string, rest: string)
    ensures a + b + c + rest == a + b + (c + rest)
  {
  }

  lemma SpelledIsLaid(open: string, left: string, path: string, right: string, close: string, rest: string)
    ensures open + (left + path + right) + close + rest == Laid(open, left, path, right, close + rest)
  {
  }

  lemma PieceFills(p: Piece, rest: string, ctx: Context, escape: bool)
    requires PieceOk(p) && (TakesABrace(p) ==> rest == [] || rest[0] != '}')
    ensures OnePass(Spelled(p) + rest, ctx, escape) == Fill(p, ctx, escape) + OnePass(rest, ctx, escape)
  {
    match p {
      case Words(text) =>
        hide OnePass, SingleBraces;
        WordsCopied(text, rest, ctx, escape);
      case Stray(left, name, right, other) =>
        hide OnePass;
        StrayCopied(left, name, right, other, rest, ctx, escape);
      case Merge(extra, left, ref, right) => MergeFills(extra, left, ref, right, rest, ctx, escape);
      case Block(left, ref, right) =>
        hide OnePass, Laid, Blank, IsRef, MergeValue, PathOf, THREE_OPEN, THREE_CLOSE;
        PathIsPath(ref);
        SpelledIsLaid(THREE_OPEN, left, PathOf(ref), right, THREE_CLOSE, rest);
        BlockFills(left, PathOf(ref), right, rest, ctx, escape);
    }
  }

  lemma MergeFills(extra: Extra, left: string, ref: Ref, right: string, rest: string, ctx: Context, escape: bool)
    requires PieceOk(Merge(extra, left, ref, right)) && (extra != BraceBehind ==> rest == [] || rest[0] != '}')
    ensures OnePass(Spelled(Merge(extra, left, ref, right)) + rest, ctx, escape) ==
            Shown(ctx, PathOf(ref), escape) + OnePass(rest, ctx, escape)
  {
    hide OnePass, Laid, Blank, IsRef, Shown, PathOf, TWO_OPEN, TWO_CLOSE, THREE_OPEN, THREE_CLOSE;
    PathIsPath(ref);
    match extra {
      case NoBrace =>
        SpelledIsLaid(TWO_OPEN, left, PathOf(ref), right, TWO_CLOSE, rest);
        FieldFills(left, PathOf(ref), right, rest, ctx, escape);
      case BraceBefore =>
        SpelledIsLaid(THREE_OPEN, left, PathOf(ref), right, TWO_CLOSE, rest);
        BeforeFills(left, PathOf(ref), right, rest, ctx, escape);
      case BraceBehind =>
        SpelledIsLaid(TWO_OPEN, left, PathOf(ref), right, THREE_CLOSE, rest);
        BehindFills(left, PathOf(ref), right, rest, ctx, escape);
    }
  }

  lemma TemplateStep(ps: seq<Piece>)
    requires ps != []
    ensures Template(ps) == Spelled(ps[0]) + Template(ps[1..])
    ensures WellCut(ps) ==> WellCut(ps[1..])
  {
    hide Spelled, PieceOk;
    var parts := seq(|ps|, i requires 0 <= i < |ps| => Spelled(ps[i]));
    assert parts[1..] == seq(|ps[1..]|, i requires 0 <= i < |ps[1..]| => Spelled(ps[1..][i]));
  }

  /** What follows a merge field is the end, a slot, or words that do not begin with a closing brace. */
  lemma BehindAField(ps: seq<Piece>)
    requires ps != [] && WellCut(ps) && TakesABrace(ps[0])
    ensures Template(ps[1..]) == [] || Template(ps[1..])[0] != '}'
  {
    if |ps| > 1 {
      TemplateStep(ps[1..]);
      assert ps[1..][0] == ps[1];
      assert PieceOk(ps[1]);
    }
  }

  lemma {:induction false} OnePassFills(ps: seq<Piece>, ctx: Context, escape: bool) returns (outs: seq<string>)
    requires WellCut(ps)
    ensures OnePass(Template(ps), ctx, escape) == Joined(outs)
    ensures |outs| == |ps| && forall i :: 0 <= i < |ps| ==> outs[i] == Fill(ps[i], ctx, escape)
    decreases |ps|
  {
    if ps == [] {
      outs := [];
    } else {
      TemplateStep(ps);
      if TakesABrace(ps[0]) { BehindAField(ps); }
      assert PieceOk(ps[0]);
      PieceFills(ps[0], Template(ps[1..]), ctx, escape);
      hide WellCut, OnePass, Template, Fill, Spelled;
      var rest := OnePassFills(ps[1..], ctx, escape);
      outs := [Fill(ps[0], ctx, escape)] + rest;
      assert outs[1..] == rest;
    }
  }

  // ------------------------------------------------------------------------- what it says

  lemma EntityIsInert(c: char)
    ensures Inert(Entity(c))
  {
  }

  lemma {:induction false} EscapedIsInert(s: string)
    ensures Inert(EscapeEach(s))
  {
    if s != [] {
      hide Entity;
      EscapedIsInert(s[1..]);
      EntityIsInert(s[0]);
    }
  }

  lemma FillIsFilled(p: Piece, ctx: Context, escape: bool)
    requires PieceOk(p)
    ensures FilledBy(p, ctx, escape, Fill(p, ctx, escape))
  {
    if !p.Words? && !p.Stray? {
      RefIsFound(ctx, p.ref);
      EscapedIsInert(Value(ctx, p.ref));
      EscapeIsPerCharacter(Value(ctx, p.ref));
      EscapeRoundTrip(Value(ctx, p.ref));
    }
    hide Unescape, EscapeHtml, EscapeEach, Value, PathOf, MergeValue, Inert;
  }

  lemma NoNulSpelled(p: Piece)
    requires PieceOk(p)
    ensures NUL !in Spelled(p)
  {
    match p
    case Words(_) =>
    case Stray(left, name, right, other) => NoNulInStray(left, name, right, other);
    case Merge(_, left, ref, right) => NoNulInside(left, ref, right);
    case Block(left, ref, right) => NoNulInside(left, ref, right);
  }

  lemma NoNulInStray(left: string, name: string, right: string, other: char)
    requires PieceOk(Stray(left, name, right, other))
    ensures NUL !in TWO_OPEN + (left + name + right) + [other]
  {
    hide BlankChar;
    forall c | c in left || c in right ensures c != NUL { BlanksAreSpace(c); }
  }

  lemma NoNulInside(left: string, ref: Ref, right: string)
    requires Blank(left) && IsRef(ref) && Blank(right)
    ensures NUL !in left + PathOf(ref) + right
  {
    PathIsPath(ref);
    hide PathOf, IsRef;
    forall c | c in left || c in right ensures c != NUL { BlanksAreSpace(c); }
  }

  lemma {:induction false} NoNulInTemplate(ps: seq<Piece>)
    requires WellCut(ps)
    ensures NUL !in Template(ps)
    decreases |ps|
  {
    if ps != [] {
      TemplateStep(ps);
      assert PieceOk(ps[0]);
      NoNulSpelled(ps[0]);
      NoNulInTemplate(ps[1..]);
    }
  }

  /**
   * Rendering a template of words and slots keeps the words, and puts into each slot what the context has for it:
   * as it is in a raw block or without escaping, and otherwise as text without markup that reads back as the value.
   */
  lemma SlotsAreFilled(ps: seq<Piece>, ctx: Context, escape: bool) returns (outs: seq<string>)
    requires WellCut(ps)
    ensures TwoPass(Template(ps), ctx, escape) == Joined(outs)
    ensures |outs| == |ps| && forall i :: 0 <= i < |ps| ==> FilledBy(ps[i], ctx, escape, outs[i])
  {
    NoNulInTemplate(ps);
    RendersOnce(Template(ps), ctx, escape);
    outs := OnePassFills(ps, ctx, escape);
    assert forall i :: 0 <= i < |ps| ==> PieceOk(ps[i]);
    hide WellCut, PieceOk, Fill, FilledBy, TwoPass, OnePass, Template;
    forall i | 0 <= i < |ps| ensures FilledBy(ps[i], ctx, escape, outs[i]) {
      FillIsFilled(ps[i], ctx, escape);
    }
  }
}
