/** Runtime templates: replacing `{key}` holes one argument after another. */
module TemplateFormat {
  import opened Options

  /** A character, or one of the two sentinels that stand in for escaped braces. */
  datatype Sym = Ch(c: char) | SOpen | SClose
  type Text = seq<Sym>

  datatype Arg = Arg(key: string, val: string)

  function Lift(s: string): (t: Text)
    ensures |t| == |s|
  {
    seq(|s|, i requires 0 <= i < |s| => Ch(s[i]))
  }

  /** The leftmost, non-overlapping occurrences of `pattern` replaced by `sub`. */
  function Replace(s: Text, pattern: Text, sub: Text): Text
    requires pattern != []
    decreases |s|
  {
    if s == [] then []
    else if pattern <= s then sub + Replace(s[|pattern|..], pattern, sub)
    else [s[0]] + Replace(s[1..], pattern, sub)
  }

  function Pattern(key: string): Text {
    [Ch('{')] + Lift(key) + [Ch('}')]
  }

  const ESC_OPEN: Text := [Ch('\\'), Ch('{')]
  const ESC_CLOSE: Text := [Ch('\\'), Ch('}')]

  function Escaped(template: string): Text {
    Replace(Replace(Lift(template), ESC_OPEN, [SOpen]), ESC_CLOSE, [SClose])
  }

  /** Longer keys first, equal lengths in their given order. */
  function Insert(a: Arg, sorted: seq<Arg>): seq<Arg> {
    if sorted == [] || |a.key| >= |sorted[0].key| then [a] + sorted
    else [sorted[0]] + Insert(a, sorted[1..])
  }

  function SortByKeyLength(args: seq<Arg>): seq<Arg> {
    if args == [] then [] else Insert(args[0], SortByKeyLength(args[1..]))
  }

  function ReplaceAll(s: Text, args: seq<Arg>): Text
    decreases |args|
  {
    if args == [] then s else ReplaceAll(Replace(s, Pattern(args[0].key), Lift(args[0].val)), args[1..])
  }

  function Unescaped(s: Text): string {
    seq(|s|, i requires 0 <= i < |s| => if s[i].Ch? then s[i].c else if s[i].SOpen? then '{' else '}')
  }

  function Formatted(template: string, args: seq<Arg>): string {
    if args == [] then template else Unescaped(ReplaceAll(Escaped(template), SortByKeyLength(args)))
  }

  /**
   For every way to read the template as tokens, the result is the one-pass simultaneous
   substitution; without arguments the template comes back as it is, escapes included.
   */
  method Tf(template: string, args: seq<Arg>) returns (formatted: string)
    ensures args == [] ==> formatted == template
    ensures forall tokens :: args != [] && WellFormed(tokens) && Render(tokens) == template && Substitutable(args) ==>
              formatted == Expected(tokens, args)
    ensures formatted == Formatted(template, args)
  {
    if args == [] { return template; }
    var result := Replace(Lift(template), ESC_OPEN, [SOpen]);
    result := Replace(result, ESC_CLOSE, [SClose]);
    var sorted := SortByKeyLength(args);
    ghost var escaped := result;
    assert sorted[0..] == sorted;
    for i := 0 to |sorted|
      invariant ReplaceAll(result, sorted[i..]) == ReplaceAll(escaped, sorted)
    {
      assert sorted[i..][1..] == sorted[i + 1..];
      result := Replace(result, Pattern(sorted[i].key), Lift(sorted[i].val));
    }
    formatted := Unescaped(result);
    forall tokens | WellFormed(tokens) && Render(tokens) == template && Substitutable(args)
      ensures formatted == Expected(tokens, args)
    {
      FormattingIsSubstitution(tokens, args);
    }
  }

  // ----------------------------------------------------------------- templates

  /** `Filled` stands for text that has already taken the place of a hole; templates do not contain it. */
  datatype Token = Lit(c: char) | Hole(key: string) | EscOpen | EscClose | Filled(val: string)

  predicate BraceFree(s: string) {
    '{' !in s && '}' !in s
  }

  predicate HoleKey(key: string) {
    BraceFree(key) && (key != "" ==> key[|key| - 1] != '\\')
  }

  /** No opening brace among the literals, and no backslash that would swallow the brace after it. */
  predicate WellFormed(tokens: seq<Token>) {
    forall i :: 0 <= i < |tokens| ==>
      && !tokens[i].Filled?
      && (tokens[i].Lit? ==> tokens[i].c != '{')
      && (tokens[i].Hole? ==> HoleKey(tokens[i].key))
      && (i > 0 && tokens[i - 1] == Lit('\\') ==> !tokens[i].Hole? && tokens[i] != Lit('}'))
  }

  function TokenText(t: Token): string {
    match t
    case Lit(c) => [c]
    case Hole(key) => "{" + key + "}"
    case EscOpen => "\\{"
    case EscClose => "\\}"
    case Filled(val) => val
  }

  function Render(tokens: seq<Token>): string {
    if tokens == [] then "" else TokenText(tokens[0]) + Render(tokens[1..])
  }

  predicate Apart(x: string, y: string) {
    !(x <= y) && !(y <= x)
  }

  /** No brace in `val` can begin the hole `{key}`, however the text goes on after the value. */
  predicate Safe(val: string, key: string) {
    forall p :: 0 <= p < |val| && val[p] == '{' ==> Apart(val[p + 1..], key + "}")
  }

  /** The value spells the very hole it stands for. */
  predicate SpellsItself(a: Arg) {
    a.val == "{" + a.key + "}"
  }

  /** Replacing `later` cannot change the value that `earlier` has left in the text. */
  predicate Undisturbed(earlier: Arg, later: Arg) {
    SpellsItself(later) || Safe(earlier.val, later.key)
  }

  predicate NothingReopened(sorted: seq<Arg>) {
    && (forall i :: 0 <= i < |sorted| ==> BraceFree(sorted[i].key))
    && (forall i, j :: 0 <= i < j < |sorted| ==> Undisturbed(sorted[i], sorted[j]))
  }

  /** In the order in which they are replaced, no value reopens a hole of a later argument. */
  predicate Substitutable(args: seq<Arg>) {
    NothingReopened(SortByKeyLength(args))
  }

  function Lookup(args: seq<Arg>, key: string): Option<string> {
    if args == [] then None else if args[0].key == key then Some(args[0].val) else Lookup(args[1..], key)
  }

  /** One pass over the tokens: known holes take their value, unknown ones stay, escapes become braces. */
  function Expected(tokens: seq<Token>, args: seq<Arg>): string {
    if tokens == [] then ""
    else
      (match tokens[0]
       case Lit(c) => [c]
       case Hole(key) => (var v := Lookup(args, key); if v.Some? then v.value else "{" + key + "}")
       case EscOpen => "{"
       case EscClose => "}"
       case Filled(val) => val)
      + Expected(tokens[1..], args)
  }

  // ------------------------------------------------------------------- escapes

  function Symbols(t: Token): Text {
    match t
    case Lit(c) => [Ch(c)]
    case Hole(key) => Pattern(key)
    case EscOpen => [SOpen]
    case EscClose => [SClose]
    case Filled(val) => Lift(val)
  }

  /** Half-way: opening braces are escaped, closing ones not yet. */
  function HalfSymbols(t: Token): Text {
    if t.EscClose? then ESC_CLOSE else Symbols(t)
  }

  function Encode(tokens: seq<Token>): Text {
    if tokens == [] then [] else Symbols(tokens[0]) + Encode(tokens[1..])
  }

  function HalfEncode(tokens: seq<Token>): Text {
    if tokens == [] then [] else HalfSymbols(tokens[0]) + HalfEncode(tokens[1..])
  }

  lemma LiftConcat(a: string, b: string)
    ensures Lift(a + b) == Lift(a) + Lift(b)
  {
  }

  lemma CopyFirst(s: Text, a: Sym, b: Sym, sub: Text)
    requires s != [] && (s[0] == a && |s| > 1 ==> s[1] != b)
    ensures Replace(s, [a, b], sub) == [s[0]] + Replace(s[1..], [a, b], sub)
  {
  }

  /** A stretch in which a two-symbol pattern cannot start is copied. */
  lemma {:induction false} SkipPair(pre: Text, s: Text, a: Sym, b: Sym, sub: Text)
    requires forall i :: 0 <= i < |pre| && pre[i] == a && i + 1 < |pre + s| ==> (pre + s)[i + 1] != b
    ensures Replace(pre + s, [a, b], sub) == pre + Replace(s, [a, b], sub)
    decreases |pre|
  {
    hide Replace;
    var all := pre + s;
    if pre == [] {
      assert all == s;
    } else {
      var rest := pre[1..];
      assert all[1..] == rest + s && all[0] == pre[0];
      forall i | 0 <= i < |rest| && rest[i] == a && i + 1 < |rest + s|
        ensures (rest + s)[i + 1] != b
      {
        assert pre[i + 1] == a && (rest + s)[i + 1] == all[i + 2];
      }
      SkipPair(rest, s, a, b, sub);
      CopyFirst(all, a, b, sub);
      assert pre == [pre[0]] + rest;
    }
  }

  lemma {:induction false} TakePair(s: Text, a: Sym, b: Sym, sub: Text)
    ensures Replace([a, b] + s, [a, b], sub) == sub + Replace(s, [a, b], sub)
  {
    assert ([a, b] + s)[2..] == s;
  }

  lemma WellFormedTail(tokens: seq<Token>)
    requires tokens != [] && WellFormed(tokens)
    ensures WellFormed(tokens[1..])
    ensures tokens[0] == Lit('\\') && tokens[1..] != [] ==> !tokens[1..][0].Hole? && tokens[1..][0] != Lit('}')
    ensures tokens[1..] != [] && tokens[1..][0].Lit? ==> tokens[1..][0].c != '{'
  {
    forall i | 0 <= i < |tokens[1..]|
      ensures var t := tokens[1..][i];
              && !t.Filled?
              && (t.Lit? ==> t.c != '{')
              && (t.Hole? ==> HoleKey(t.key))
              && (i > 0 && tokens[1..][i - 1] == Lit('\\') ==> !t.Hole? && t != Lit('}'))
    {
      assert tokens[1..][i] == tokens[i + 1];
    }
  }

  /** A hole holds neither escape, and does not end in a backslash. */
  lemma HoleHasNoEscape(key: string, i: nat)
    requires HoleKey(key) && i < |Pattern(key)| && Pattern(key)[i] == Ch('\\')
    ensures i + 1 < |Pattern(key)| && Pattern(key)[i + 1] != Ch('{') && Pattern(key)[i + 1] != Ch('}')
  {
    assert Pattern(key)[i] == Ch(key[i - 1]);
    assert i < |key|;
    assert Pattern(key)[i + 1] == Ch(key[i]) && key[i] in key;
  }

  /** No opening escape starts in the text of a token other than `EscOpen`, whatever follows it. */
  lemma NoOpenEscapeIn(tokens: seq<Token>, rest: string, i: nat)
    requires tokens != [] && WellFormed(tokens) && !tokens[0].EscOpen? && rest == Render(tokens[1..])
    requires i < |TokenText(tokens[0])| && TokenText(tokens[0])[i] == '\\' && i + 1 < |TokenText(tokens[0]) + rest|
    ensures (TokenText(tokens[0]) + rest)[i + 1] != '{'
  {
    if tokens[0].Hole? {
      NoOpenEscapeInHole(tokens[0].key, i);
    } else {
      NoOpenEscapeElsewhere(tokens, rest, i);
    }
  }

  lemma NoOpenEscapeInHole(key: string, i: nat)
    requires HoleKey(key) && i < |TokenText(Hole(key))|
    ensures TokenText(Hole(key))[i] == '\\' ==> i + 1 < |TokenText(Hole(key))| && TokenText(Hole(key))[i + 1] != '{'
  {
    var text := "{" + key + "}";
    assert TokenText(Hole(key)) == text;
    hide TokenText;
    if text[i] == '\\' {
      assert text[i] == key[i - 1] && i < |key|;
      assert text[i + 1] == key[i];
    }
  }

  lemma NoOpenEscapeElsewhere(tokens: seq<Token>, rest: string, i: nat)
    requires tokens != [] && WellFormed(tokens) && !tokens[0].EscOpen? && !tokens[0].Hole? && rest == Render(tokens[1..])
    requires i < |TokenText(tokens[0])| && TokenText(tokens[0])[i] == '\\' && i + 1 < |TokenText(tokens[0]) + rest|
    ensures (TokenText(tokens[0]) + rest)[i + 1] != '{'
  {
    WellFormedTail(tokens);
  }

  lemma {:induction false} OpenEscapes(tokens: seq<Token>)
    requires WellFormed(tokens)
    ensures Replace(Lift(Render(tokens)), ESC_OPEN, [SOpen]) == HalfEncode(tokens)
    decreases |tokens|
  {
    if tokens != [] {
      var t, rest := tokens[0], Render(tokens[1..]);
      WellFormedTail(tokens);
      OpenEscapes(tokens[1..]);
      LiftConcat(TokenText(t), rest);
      var text := Lift(TokenText(t));
      if t.EscOpen? {
        assert text == ESC_OPEN;
        TakePair(Lift(rest), Ch('\\'), Ch('{'), [SOpen]);
      } else {
        forall i | 0 <= i < |text| && text[i] == Ch('\\') && i + 1 < |text + Lift(rest)|
          ensures (text + Lift(rest))[i + 1] != Ch('{')
        {
          NoOpenEscapeIn(tokens, rest, i);
          assert (text + Lift(rest))[i + 1] == Ch((TokenText(t) + rest)[i + 1]);
        }
        SkipPair(text, Lift(rest), Ch('\\'), Ch('{'), [SOpen]);
        HalfIsLifted(t);
        hide Replace;
        hide TokenText;
      }
    }
  }

  lemma HalfIsLifted(t: Token)
    requires !t.EscOpen?
    ensures Lift(TokenText(t)) == HalfSymbols(t)
  {
    match t
    case Lit(c) =>
    case Filled(val) =>
    case EscClose => assert Lift("\\}") == ESC_CLOSE;
    case Hole(key) =>
      LiftConcat("{" + key, "}");
      LiftConcat("{", key);
  }

  lemma {:induction false} CloseEscapes(tokens: seq<Token>)
    requires WellFormed(tokens)
    ensures Replace(HalfEncode(tokens), ESC_CLOSE, [SClose]) == Encode(tokens)
    decreases |tokens|
  {
    if tokens != [] {
      var t, rest := tokens[0], HalfEncode(tokens[1..]);
      WellFormedTail(tokens);
      CloseEscapes(tokens[1..]);
      var text := HalfSymbols(t);
      if t.EscClose? {
        TakePair(rest, Ch('\\'), Ch('}'), [SClose]);
      } else {
        forall i | 0 <= i < |text| && text[i] == Ch('\\') && i + 1 < |text + rest|
          ensures (text + rest)[i + 1] != Ch('}')
        {
          if t.Hole? {
            HoleHasNoEscape(t.key, i);
          }
        }
        SkipPair(text, rest, Ch('\\'), Ch('}'), [SClose]);
      }
    }
  }

  // -------------------------------------------------------------- substitution

  /** What the holes and literals must satisfy once the escapes are gone. */
  predicate Plain(tokens: seq<Token>) {
    forall i :: 0 <= i < |tokens| ==>
      (tokens[i].Lit? ==> tokens[i].c != '{') && (tokens[i].Hole? ==> BraceFree(tokens[i].key))
  }

  /** No text filled in so far reopens a hole of `key`. */
  predicate Spared(tokens: seq<Token>, key: string) {
    forall i :: 0 <= i < |tokens| && tokens[i].Filled? ==> Safe(tokens[i].val, key)
  }

  function FillOne(t: Token, a: Arg): Token {
    if t == Hole(a.key) then Filled(a.val) else t
  }

  /** One argument put into every hole with its key. */
  function Fill(tokens: seq<Token>, a: Arg): (filled: seq<Token>)
    ensures |filled| == |tokens|
    ensures forall i :: 0 <= i < |tokens| ==> filled[i] == FillOne(tokens[i], a)
  {
    if tokens == [] then [] else [FillOne(tokens[0], a)] + Fill(tokens[1..], a)
  }

  lemma {:induction false} SkipNonBraces(pre: Text, s: Text, key: string, sub: Text)
    requires Ch('{') !in pre
    ensures Replace(pre + s, Pattern(key), sub) == pre + Replace(s, Pattern(key), sub)
    decreases |pre|
  {
    if pre == [] {
      assert pre + s == s;
    } else {
      assert (pre + s)[0] == pre[0] && (pre + s)[1..] == pre[1..] + s;
      assert Pattern(key)[0] == Ch('{') && pre[0] in pre;
      SkipNonBraces(pre[1..], s, key, sub);
    }
  }

  /** A brace whose continuation is apart from the hole does not begin a match. */
  lemma NoMatchInValue(val: string, rest: Text, key: string)
    requires val != "" && (val[0] == '{' ==> Apart(val[1..], key + "}"))
    ensures !(Pattern(key) <= Lift(val) + rest)
  {
    var p, all, hole := Pattern(key), Lift(val) + rest, key + "}";
    if p <= all {
      assert p[0] == all[0] && all[0] == Ch(val[0]);
      var n := if |val| - 1 < |hole| then |val| - 1 else |hole|;
      forall i | 0 <= i < n ensures hole[i] == val[1..][i] {
        assert p[i + 1] == all[i + 1] && all[i + 1] == Ch(val[i + 1]) && p[i + 1] == Ch(hole[i]);
      }
    }
  }

  lemma {:induction false} SkipSafe(val: string, rest: Text, key: string, sub: Text)
    requires Safe(val, key)
    ensures Replace(Lift(val) + rest, Pattern(key), sub) == Lift(val) + Replace(rest, Pattern(key), sub)
    decreases |val|
  {
    if val == "" {
      assert Lift(val) + rest == rest;
    } else {
      var all, tail := Lift(val) + rest, val[1..];
      assert all[0] == Ch(val[0]) && all[1..] == Lift(tail) + rest;
      forall p | 0 <= p < |tail| && tail[p] == '{' ensures Apart(tail[p + 1..], key + "}") {
        assert val[p + 1] == '{' && val[p + 1 + 1..] == tail[p + 1..];
      }
      SkipSafe(tail, rest, key, sub);
      NoMatchInValue(val, rest, key);
      assert Lift(val) == [Ch(val[0])] + Lift(tail);
    }
  }

  /** A hole is matched by the pattern of its own key only. */
  lemma HoleMatchesOwnKey(key: string, hole: string, s: Text)
    requires BraceFree(key) && BraceFree(hole)
    ensures Pattern(key) <= Pattern(hole) + s <==> key == hole
  {
    var p, q := Pattern(key), Pattern(hole);
    if |key| > |hole| {
      assert p[|hole| + 1] == Ch(key[|hole|]) && key[|hole|] in key;
      assert (q + s)[|hole| + 1] == Ch('}');
    } else if |key| < |hole| {
      assert (q + s)[|key| + 1] == Ch(hole[|key|]) && hole[|key|] in hole;
      assert p[|key| + 1] == Ch('}');
    } else if p <= q + s {
      forall i | 0 <= i < |key| ensures key[i] == hole[i] {
        assert p[i + 1] == Ch(key[i]) && (q + s)[i + 1] == Ch(hole[i]);
      }
    }
  }

  lemma ReplaceAtOwnHole(a: Arg, rest: Text)
    ensures Replace(Pattern(a.key) + rest, Pattern(a.key), Lift(a.val)) == Lift(a.val) + Replace(rest, Pattern(a.key), Lift(a.val))
  {
    assert (Pattern(a.key) + rest)[|Pattern(a.key)|..] == rest;
  }

  lemma ReplaceAtOtherHole(a: Arg, hole: string, rest: Text)
    requires BraceFree(a.key) && BraceFree(hole) && hole != a.key
    ensures Replace(Pattern(hole) + rest, Pattern(a.key), Lift(a.val)) == Pattern(hole) + Replace(rest, Pattern(a.key), Lift(a.val))
  {
    HoleMatchesOwnKey(a.key, hole, rest);
    var tail := Lift(hole) + [Ch('}')];
    var all := Pattern(hole) + rest;
    assert all[0] == Ch('{') && all[1..] == tail + rest;
    SkipNonBraces(tail, rest, a.key, Lift(a.val));
    hide Replace;
    var done := Replace(rest, Pattern(a.key), Lift(a.val));
    assert [Ch('{')] + (tail + done) == Pattern(hole) + done;
  }

  /** One token: its hole is filled, anything else is copied. */
  lemma ReplaceAtToken(t: Token, a: Arg, rest: Text)
    requires BraceFree(a.key) && (t.Lit? ==> t.c != '{') && (t.Hole? ==> BraceFree(t.key))
    requires t.Filled? ==> Safe(t.val, a.key)
    ensures Replace(Symbols(t) + rest, Pattern(a.key), Lift(a.val))
         == Symbols(FillOne(t, a)) + Replace(rest, Pattern(a.key), Lift(a.val))
  {
    if t == Hole(a.key) {
      ReplaceAtOwnHole(a, rest);
    } else if t.Hole? {
      ReplaceAtOtherHole(a, t.key, rest);
    } else if t.Filled? {
      SkipSafe(t.val, rest, a.key, Lift(a.val));
    } else {
      SkipNonBraces(Symbols(t), rest, a.key, Lift(a.val));
    }
  }

  lemma {:induction false} ReplaceIsFill(tokens: seq<Token>, a: Arg)
    requires Plain(tokens) && BraceFree(a.key) && Spared(tokens, a.key)
    ensures Replace(Encode(tokens), Pattern(a.key), Lift(a.val)) == Encode(Fill(tokens, a))
    decreases |tokens|
  {
    if tokens != [] {
      ReplaceAtToken(tokens[0], a, Encode(tokens[1..]));
      ReplaceIsFill(tokens[1..], a);
      hide Replace;
      hide Pattern;
      hide Symbols;
    }
  }

  lemma {:induction false} ReplaceByItself(s: Text, pattern: Text)
    requires pattern != []
    ensures Replace(s, pattern, pattern) == s
    decreases |s|
  {
    if s != [] {
      if pattern <= s {
        ReplaceByItself(s[|pattern|..], pattern);
        assert s == pattern + s[|pattern|..];
      } else {
        ReplaceByItself(s[1..], pattern);
      }
    }
  }

  lemma LiftedPattern(key: string)
    ensures Lift("{" + key + "}") == Pattern(key)
    ensures Unescaped(Lift(key)) == key
  {
    LiftConcat("{" + key, "}");
    LiftConcat("{", key);
  }

  lemma {:induction false} FilledWithItselfReadsTheSame(tokens: seq<Token>, a: Arg)
    requires SpellsItself(a)
    ensures Encode(Fill(tokens, a)) == Encode(tokens)
    decreases |tokens|
  {
    LiftedPattern(a.key);
    if tokens != [] {
      FilledWithItselfReadsTheSame(tokens[1..], a);
    }
  }

  /** A value that spells its own hole changes nothing anywhere; any other must spare what is filled in already. */
  lemma ReplaceIsFillAnyway(tokens: seq<Token>, a: Arg)
    requires Plain(tokens) && BraceFree(a.key) && (SpellsItself(a) || Spared(tokens, a.key))
    ensures Replace(Encode(tokens), Pattern(a.key), Lift(a.val)) == Encode(Fill(tokens, a))
  {
    if SpellsItself(a) {
      LiftedPattern(a.key);
      ReplaceByItself(Encode(tokens), Pattern(a.key));
      FilledWithItselfReadsTheSame(tokens, a);
    } else {
      ReplaceIsFill(tokens, a);
    }
  }

  function FillAll(tokens: seq<Token>, args: seq<Arg>): seq<Token>
    decreases |args|
  {
    if args == [] then tokens else FillAll(Fill(tokens, args[0]), args[1..])
  }

  predicate SparedByAll(tokens: seq<Token>, args: seq<Arg>) {
    forall j :: 0 <= j < |args| ==> SpellsItself(args[j]) || Spared(tokens, args[j].key)
  }

  lemma FillKeepsSpared(tokens: seq<Token>, args: seq<Arg>)
    requires args != [] && NothingReopened(args) && SparedByAll(tokens, args) && Plain(tokens)
    ensures SparedByAll(Fill(tokens, args[0]), args[1..]) && Plain(Fill(tokens, args[0])) && NothingReopened(args[1..])
  {
    var filled, rest := Fill(tokens, args[0]), args[1..];
    forall j | 0 <= j < |rest| && !SpellsItself(rest[j]) ensures Spared(filled, rest[j].key) {
      assert rest[j] == args[j + 1] && Undisturbed(args[0], args[j + 1]);
    }
  }

  lemma {:induction false} ReplaceAllIsFillAll(tokens: seq<Token>, args: seq<Arg>)
    requires Plain(tokens) && NothingReopened(args) && SparedByAll(tokens, args)
    ensures ReplaceAll(Encode(tokens), args) == Encode(FillAll(tokens, args))
    decreases |args|
  {
    if args != [] {
      ReplaceIsFillAnyway(tokens, args[0]);
      FillKeepsSpared(tokens, args);
      ReplaceAllIsFillAll(Fill(tokens, args[0]), args[1..]);
    }
  }

  // ------------------------------------------------------------ simultaneously

  /** Filling one argument first and substituting the others later is substituting them all. */
  lemma {:induction false} FillThenRest(tokens: seq<Token>, args: seq<Arg>)
    requires args != []
    ensures Expected(Fill(tokens, args[0]), args[1..]) == Expected(tokens, args)
    decreases |tokens|
  {
    if tokens != [] {
      FillThenRest(tokens[1..], args);
      assert Fill(tokens, args[0])[1..] == Fill(tokens[1..], args[0]);
    }
  }

  lemma UnescapedConcat(one: Text, two: Text)
    ensures Unescaped(one + two) == Unescaped(one) + Unescaped(two)
  {
  }

  lemma UnescapedSymbols(t: Token)
    ensures Unescaped(Symbols(t)) == Expected([t], [])
  {
    assert [t][1..] == [];
    match t
    case Hole(key) => LiftedPattern(key); LiftedPattern("{" + key + "}");
    case Filled(val) => LiftedPattern(val);
    case _ =>
  }

  lemma {:induction false} UnescapedIsExpected(tokens: seq<Token>)
    ensures Unescaped(Encode(tokens)) == Expected(tokens, [])
    decreases |tokens|
  {
    if tokens != [] {
      UnescapedIsExpected(tokens[1..]);
      UnescapedConcat(Symbols(tokens[0]), Encode(tokens[1..]));
      UnescapedSymbols(tokens[0]);
      assert [tokens[0]][1..] == [];
      assert Expected([], []) == "";
      hide Unescaped;
      hide Symbols;
    }
  }

  lemma {:induction false} FillAllIsExpected(tokens: seq<Token>, args: seq<Arg>)
    ensures Expected(FillAll(tokens, args), []) == Expected(tokens, args)
    decreases |args|
  {
    if args != [] {
      FillAllIsExpected(Fill(tokens, args[0]), args[1..]);
      FillThenRest(tokens, args);
    }
  }

  // ------------------------------------------------------------------- sorting

  predicate ByDescendingKeyLength(args: seq<Arg>) {
    forall i, j :: 0 <= i < j < |args| ==> |args[i].key| >= |args[j].key|
  }

  /** The arguments with keys of one length, in their order. */
  function OfLength(args: seq<Arg>, n: nat): seq<Arg> {
    if args == [] then [] else (if |args[0].key| == n then [args[0]] else []) + OfLength(args[1..], n)
  }

  lemma {:induction false} InsertAdds(a: Arg, sorted: seq<Arg>)
    ensures multiset(Insert(a, sorted)) == multiset{a} + multiset(sorted)
  {
    if sorted != [] && |a.key| < |sorted[0].key| {
      InsertAdds(a, sorted[1..]);
      assert sorted == [sorted[0]] + sorted[1..];
    }
  }

  lemma {:induction false} InsertKeepsOrder(a: Arg, sorted: seq<Arg>)
    requires ByDescendingKeyLength(sorted)
    ensures ByDescendingKeyLength(Insert(a, sorted))
  {
    if sorted != [] && |a.key| < |sorted[0].key| {
      InsertKeepsOrder(a, sorted[1..]);
      InsertAdds(a, sorted[1..]);
      var rest := Insert(a, sorted[1..]);
      forall k | 0 <= k < |rest| ensures |rest[k].key| <= |sorted[0].key| {
        assert rest[k] in multiset(rest);
      }
    }
  }

  lemma {:induction false} InsertGoesInFront(a: Arg, sorted: seq<Arg>, n: nat)
    ensures OfLength(Insert(a, sorted), n) == (if |a.key| == n then [a] else []) + OfLength(sorted, n)
  {
    if sorted != [] && |a.key| < |sorted[0].key| {
      InsertGoesInFront(a, sorted[1..], n);
    }
  }

  /** The sort orders by key length, loses and adds nothing, and keeps keys of the same length in their order. */
  lemma {:induction false} SortedByKeyLength(args: seq<Arg>)
    ensures ByDescendingKeyLength(SortByKeyLength(args))
    ensures multiset(SortByKeyLength(args)) == multiset(args)
    ensures forall n: nat :: OfLength(SortByKeyLength(args), n) == OfLength(args, n)
  {
    if args != [] {
      SortedByKeyLength(args[1..]);
      InsertKeepsOrder(args[0], SortByKeyLength(args[1..]));
      InsertAdds(args[0], SortByKeyLength(args[1..]));
      forall n: nat ensures OfLength(SortByKeyLength(args), n) == OfLength(args, n) {
        InsertGoesInFront(args[0], SortByKeyLength(args[1..]), n);
      }
      assert args == [args[0]] + args[1..];
    }
  }

  /** What a key stands for is decided among the arguments whose keys have its length. */
  lemma {:induction false} LookupByLength(args: seq<Arg>, key: string)
    ensures Lookup(args, key) == Lookup(OfLength(args, |key|), key)
  {
    if args != [] {
      LookupByLength(args[1..], key);
      if |args[0].key| == |key| {
        var same := OfLength(args, |key|);
        assert same == [args[0]] + OfLength(args[1..], |key|);
        assert same[0] == args[0] && same[1..] == OfLength(args[1..], |key|);
      } else {
        assert OfLength(args, |key|) == [] + OfLength(args[1..], |key|) == OfLength(args[1..], |key|);
      }
    }
  }

  lemma SortKeepsLookup(args: seq<Arg>, key: string)
    ensures Lookup(SortByKeyLength(args), key) == Lookup(args, key)
  {
    SortedByKeyLength(args);
    LookupByLength(args, key);
    LookupByLength(SortByKeyLength(args), key);
  }

  lemma {:induction false} ExpectedByLookup(tokens: seq<Token>, one: seq<Arg>, two: seq<Arg>)
    requires forall key :: Lookup(one, key) == Lookup(two, key)
    ensures Expected(tokens, one) == Expected(tokens, two)
  {
    if tokens != [] {
      ExpectedByLookup(tokens[1..], one, two);
    }
  }

  // ------------------------------------------------------------- main theorems

  lemma EscapedIsEncoded(tokens: seq<Token>)
    requires WellFormed(tokens)
    ensures Escaped(Render(tokens)) == Encode(tokens)
  {
    OpenEscapes(tokens);
    CloseEscapes(tokens);
  }

  /** Replacing argument after argument is the one-pass simultaneous substitution. */
  lemma FormattingIsSubstitution(tokens: seq<Token>, args: seq<Arg>)
    requires args != [] && WellFormed(tokens) && Substitutable(args)
    ensures Formatted(Render(tokens), args) == Expected(tokens, args)
  {
    var sorted := SortByKeyLength(args);
    EscapedIsEncoded(tokens);
    ReplaceAllIsFillAll(tokens, sorted);
    UnescapedIsExpected(FillAll(tokens, sorted));
    FillAllIsExpected(tokens, sorted);
    forall key ensures Lookup(sorted, key) == Lookup(args, key) { SortKeepsLookup(args, key); }
    ExpectedByLookup(tokens, sorted, args);
  }

  // ------------------------------------------------- what a token turns into

  /** The argument at position i is the first with its key. */
  predicate FirstWithKey(args: seq<Arg>, i: nat, key: string) {
    i < |args| && args[i].key == key && forall j :: 0 <= j < i ==> args[j].key != key
  }

  lemma {:induction false} LookupIsFirst(args: seq<Arg>, key: string)
    ensures Lookup(args, key).None? <==> forall i :: 0 <= i < |args| ==> args[i].key != key
    ensures forall i: nat :: FirstWithKey(args, i, key) ==> Lookup(args, key) == Some(args[i].val)
    decreases |args|
  {
    if args != [] {
      LookupIsFirst(args[1..], key);
      forall i: nat | FirstWithKey(args, i, key) ensures Lookup(args, key) == Some(args[i].val) {
        if i > 0 {
          assert forall j :: 0 <= j < i - 1 ==> args[1..][j] == args[j + 1];
          assert FirstWithKey(args[1..], i - 1, key);
        }
      }
      if args[0].key != key {
        assert forall i :: 0 < i < |args| ==> args[1..][i - 1] == args[i];
      }
    }
  }

  /** The substitution works token by token: a known hole becomes the value, an unknown one stays, an escape becomes its brace. */
  lemma ExpectedOfOne(args: seq<Arg>, key: string, c: char)
    ensures Expected([Lit(c)], args) == [c] && Expected([EscOpen], args) == "{" && Expected([EscClose], args) == "}"
    ensures (forall i :: 0 <= i < |args| ==> args[i].key != key) ==> Expected([Hole(key)], args) == "{" + key + "}"
    ensures forall i: nat :: FirstWithKey(args, i, key) ==> Expected([Hole(key)], args) == args[i].val
    ensures TokenText(Lit(c)) == [c] && TokenText(Hole(key)) == "{" + key + "}"
    ensures TokenText(EscOpen) == ['\\', '{'] && TokenText(EscClose) == ['\\', '}']
  {
    LookupIsFirst(args, key);
    assert [Lit(c)][1..] == [] && [EscOpen][1..] == [] && [EscClose][1..] == [] && [Hole(key)][1..] == [];
    assert Expected([], args) == "";
  }

  lemma {:induction false} ExpectedInTwoParts(one: seq<Token>, two: seq<Token>, args: seq<Arg>)
    ensures Expected(one + two, args) == Expected(one, args) + Expected(two, args)
    ensures Render(one + two) == Render(one) + Render(two)
    decreases |one|
  {
    if one == [] {
      assert one + two == two;
    } else {
      assert (one + two)[1..] == one[1..] + two;
      ExpectedInTwoParts(one[1..], two, args);
    }
  }

  /** Characters as literals. */
  function Lits(s: string): (tokens: seq<Token>)
    ensures |tokens| == |s|
  {
    seq(|s|, i requires 0 <= i < |s| => Lit(s[i]))
  }

  predicate PlainText(s: string) {
    '{' !in s && '\\' !in s
  }

  lemma {:induction false} LitsAreTheText(s: string, args: seq<Arg>)
    ensures Render(Lits(s)) == s && Expected(Lits(s), args) == s
    decreases |s|
  {
    if s != [] {
      assert Lits(s)[1..] == Lits(s[1..]);
      LitsAreTheText(s[1..], args);
    }
  }

  /**
   In particular: in a text without backslashes or other opening braces the hole `{key}` is
   replaced by the value of `key`, whatever that value is, and the rest stays.
   */
  lemma OneHoleIsFilled(pre: string, key: string, val: string, post: string)
    requires PlainText(pre) && PlainText(post) && BraceFree(key) && '\\' !in key
    ensures Formatted(pre + (("{" + key + "}") + post), [Arg(key, val)]) == pre + (val + post)
    ensures Formatted(pre, [Arg(key, val)]) == pre
  {
    var args := [Arg(key, val)];
    var tokens := Lits(pre) + ([Hole(key)] + Lits(post));
    OneHoleReads(pre, key, val, post);
    LitsAreTheText(pre, args);
    OneArgument(Arg(key, val));
    hide *;
    FormattingIsSubstitution(tokens, args);
    FormattingIsSubstitution(Lits(pre), args);
  }

  lemma OneArgument(a: Arg)
    requires BraceFree(a.key)
    ensures Substitutable([a])
  {
    assert [a][1..] == [];
    assert SortByKeyLength([a]) == [a];
  }

  lemma OneHoleReads(pre: string, key: string, val: string, post: string)
    requires PlainText(pre) && PlainText(post) && BraceFree(key) && '\\' !in key
    ensures var tokens := Lits(pre) + ([Hole(key)] + Lits(post));
            && WellFormed(tokens) && WellFormed(Lits(pre))
            && Render(tokens) == pre + (("{" + key + "}") + post)
            && Expected(tokens, [Arg(key, val)]) == pre + (val + post)
  {
    OneHoleIsWellFormed(pre, key, post);
    FirstOfOne(key, val);
    hide *;
    var args := [Arg(key, val)];
    LitsAreTheText(pre, args);
    LitsAreTheText(post, args);
    ExpectedInTwoParts(Lits(pre), [Hole(key)] + Lits(post), args);
    ExpectedInTwoParts([Hole(key)], Lits(post), args);
  }

  lemma OneHoleIsWellFormed(pre: string, key: string, post: string)
    requires PlainText(pre) && PlainText(post) && BraceFree(key) && '\\' !in key
    ensures WellFormed(Lits(pre) + ([Hole(key)] + Lits(post))) && WellFormed(Lits(pre))
  {
  }

  lemma FirstOfOne(key: string, val: string)
    ensures Expected([Hole(key)], [Arg(key, val)]) == val && Render([Hole(key)]) == "{" + key + "}"
  {
    assert FirstWithKey([Arg(key, val)], 0, key);
    ExpectedOfOne([Arg(key, val)], key, 'x');
    assert [Hole(key)][1..] == [];
    assert Render([]) == "";
  }

  predicate DistinctKeys(args: seq<Arg>) {
    forall i, j :: 0 <= i < j < |args| ==> args[i].key != args[j].key
  }

  lemma {:induction false} LookupFinds(args: seq<Arg>, key: string)
    requires DistinctKeys(args)
    ensures forall i :: 0 <= i < |args| && args[i].key == key ==> Lookup(args, key) == Some(args[i].val)
    ensures (forall a :: a in args ==> a.key != key) ==> Lookup(args, key) == None
  {
    if args != [] {
      LookupFinds(args[1..], key);
    }
  }

  lemma LookupIgnoresOrder(one: seq<Arg>, two: seq<Arg>, key: string)
    requires DistinctKeys(one) && DistinctKeys(two) && multiset(one) == multiset(two)
    ensures Lookup(one, key) == Lookup(two, key)
  {
    LookupFinds(one, key);
    LookupFinds(two, key);
    if a :| a in one && a.key == key {
      assert a in multiset(two);
    } else {
      assert forall a :: a in two ==> a in multiset(one);
    }
  }

  /** With distinct keys the order in which the arguments are passed does not matter. */
  lemma ArgumentOrderIsIrrelevant(tokens: seq<Token>, one: seq<Arg>, two: seq<Arg>)
    requires one != [] && WellFormed(tokens) && Substitutable(one) && Substitutable(two)
    requires DistinctKeys(one) && DistinctKeys(two) && multiset(one) == multiset(two)
    ensures Formatted(Render(tokens), one) == Formatted(Render(tokens), two)
  {
    assert two != [] by { assert one[0] in multiset(two); }
    forall key ensures Lookup(one, key) == Lookup(two, key) { LookupIgnoresOrder(one, two, key); }
    FormattingIsSubstitution(tokens, one);
    FormattingIsSubstitution(tokens, two);
    ExpectedByLookup(tokens, one, two);
  }
}
