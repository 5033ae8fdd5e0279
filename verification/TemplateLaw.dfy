/** When, exactly, sequential replacement is simultaneous substitution for every template. */
module TemplateLaw {
  import opened Options
  import opened TemplateFormat

  // ------------------------------------------------ replacements that show

  ghost predicate Occurs(s: Text, pattern: Text) {
    exists p :: OccursAt(s, pattern, p)
  }

  predicate OccursAt(s: Text, pattern: Text, p: nat) {
    p <= |s| && pattern <= s[p..]
  }

  lemma NothingIsEmpty(pattern: Text)
    requires pattern != []
    ensures !Occurs([], pattern)
  {
    forall p: nat ensures !OccursAt([], pattern, p) {
    }
  }

  lemma OccursLater(s: Text, pattern: Text)
    requires Occurs(s, pattern) && !(pattern <= s) && s != []
    ensures Occurs(s[1..], pattern)
  {
    var p: nat :| OccursAt(s, pattern, p);
    assert s[0..] == s;
    assert s[p..] == s[1..][p - 1..];
    assert OccursAt(s[1..], pattern, p - 1);
  }

  lemma {:induction false} LengthMoves(s: Text, pattern: Text, sub: Text)
    requires pattern != []
    ensures |sub| >= |pattern| ==> |Replace(s, pattern, sub)| >= |s|
    ensures |sub| <= |pattern| ==> |Replace(s, pattern, sub)| <= |s|
    ensures |sub| > |pattern| && Occurs(s, pattern) ==> |Replace(s, pattern, sub)| > |s|
    ensures |sub| < |pattern| && Occurs(s, pattern) ==> |Replace(s, pattern, sub)| < |s|
    decreases |s|
  {
    if s != [] {
      if pattern <= s {
        LengthMoves(s[|pattern|..], pattern, sub);
      } else {
        LengthMoves(s[1..], pattern, sub);
        if Occurs(s, pattern) { OccursLater(s, pattern); }
      }
    } else {
      NothingIsEmpty(pattern);
    }
  }

  /** Replacing something that occurs by something else shows. */
  lemma {:induction false} ReplaceChanges(s: Text, pattern: Text, sub: Text)
    requires pattern != [] && sub != pattern && Occurs(s, pattern)
    ensures Replace(s, pattern, sub) != s
    decreases |s|
  {
    if |sub| != |pattern| {
      LengthMoves(s, pattern, sub);
    } else if pattern <= s {
      var after := sub + Replace(s[|pattern|..], pattern, sub);
      assert after[..|sub|] == sub && s[..|pattern|] == pattern;
    } else if s != [] {
      OccursLater(s, pattern);
      ReplaceChanges(s[1..], pattern, sub);
      var after := [s[0]] + Replace(s[1..], pattern, sub);
      assert after[1..] == Replace(s[1..], pattern, sub);
    } else {
      NothingIsEmpty(pattern);
    }
  }

  function Opens(s: Text): nat {
    if s == [] then 0 else (if s[0] == Ch('{') then 1 else 0) + Opens(s[1..])
  }

  lemma {:induction false} OpensConcat(a: Text, b: Text)
    ensures Opens(a + b) == Opens(a) + Opens(b)
    decreases |a|
  {
    if a == [] {
      assert a + b == b;
    } else {
      assert (a + b)[0] == a[0] && (a + b)[1..] == a[1..] + b;
      OpensConcat(a[1..], b);
    }
  }

  lemma {:induction false} NoOpens(val: string)
    requires '{' !in val
    ensures Opens(Lift(val)) == 0
    decreases |val|
  {
    if val != "" {
      assert Lift(val)[1..] == Lift(val[1..]);
      NoOpens(val[1..]);
    }
  }

  /** A replacement by brace-free text costs a brace wherever it happens. */
  lemma {:induction false} OpensDrop(s: Text, key: string, sub: Text)
    requires Opens(sub) == 0
    ensures Opens(Replace(s, Pattern(key), sub)) <= Opens(s)
    ensures Occurs(s, Pattern(key)) ==> Opens(Replace(s, Pattern(key), sub)) < Opens(s)
    decreases |s|
  {
    var pattern := Pattern(key);
    assert Opens(pattern) >= 1;
    if s != [] {
      if pattern <= s {
        var tail := s[|pattern|..];
        OpensDrop(tail, key, sub);
        OpensConcat(sub, Replace(tail, pattern, sub));
        OpensConcat(pattern, tail);
        assert s == pattern + tail;
      } else {
        OpensDrop(s[1..], key, sub);
        OpensConcat([s[0]], Replace(s[1..], pattern, sub));
        OpensConcat([s[0]], s[1..]);
        assert s == [s[0]] + s[1..];
        if Occurs(s, pattern) { OccursLater(s, pattern); }
      }
    } else {
      NothingIsEmpty(pattern);
    }
  }

  lemma {:induction false} OpensOnlyDrop(s: Text, args: seq<Arg>)
    requires forall k :: 0 <= k < |args| ==> '{' !in args[k].val
    ensures Opens(ReplaceAll(s, args)) <= Opens(s)
    decreases |args|
  {
    if args != [] {
      NoOpens(args[0].val);
      OpensDrop(s, args[0].key, Lift(args[0].val));
      OpensOnlyDrop(Replace(s, Pattern(args[0].key), Lift(args[0].val)), args[1..]);
    }
  }

  predicate Characters(s: Text) {
    forall i :: 0 <= i < |s| ==> s[i].Ch?
  }

  lemma {:induction false} ReplaceKeepsCharacters(s: Text, pattern: Text, sub: Text)
    requires pattern != [] && Characters(s) && Characters(sub)
    ensures Characters(Replace(s, pattern, sub))
    decreases |s|
  {
    if s != [] {
      ReplaceKeepsCharacters(if pattern <= s then s[|pattern|..] else s[1..], pattern, sub);
    }
  }

  lemma {:induction false} ReplaceAllKeepsCharacters(s: Text, args: seq<Arg>)
    requires Characters(s)
    ensures Characters(ReplaceAll(s, args))
    decreases |args|
  {
    if args != [] {
      ReplaceKeepsCharacters(s, Pattern(args[0].key), Lift(args[0].val));
      ReplaceAllKeepsCharacters(Replace(s, Pattern(args[0].key), Lift(args[0].val)), args[1..]);
    }
  }

  lemma UnescapedCharacters(s: Text)
    requires Characters(s)
    ensures Lift(Unescaped(s)) == s
  {
  }

  lemma {:induction false} ReplaceAllInParts(s: Text, one: seq<Arg>, two: seq<Arg>)
    ensures ReplaceAll(s, one + two) == ReplaceAll(ReplaceAll(s, one), two)
    decreases |one|
  {
    if one == [] {
      assert one + two == two;
    } else {
      assert (one + two)[0] == one[0] && (one + two)[1..] == one[1..] + two;
      ReplaceAllInParts(Replace(s, Pattern(one[0].key), Lift(one[0].val)), one[1..], two);
    }
  }

  // ------------------------------------------------------------------ probes

  function Lits(s: string): (tokens: seq<Token>)
    ensures |tokens| == |s|
  {
    seq(|s|, i requires 0 <= i < |s| => Lit(s[i]))
  }

  lemma {:induction false} EncodeLits(s: string)
    ensures Encode(Lits(s)) == Lift(s)
    decreases |s|
  {
    if s != "" {
      assert Lits(s)[1..] == Lits(s[1..]);
      EncodeLits(s[1..]);
    }
  }

  lemma {:induction false} ExpectedLits(s: string, args: seq<Arg>)
    ensures Expected(Lits(s), args) == s
    decreases |s|
  {
    if s != "" {
      assert Lits(s)[1..] == Lits(s[1..]);
      ExpectedLits(s[1..], args);
    }
  }

  /** A hole and literal text after it; once it is filled, a value and that text. */
  function Probe(t: Token, text: string): seq<Token> {
    [t] + Lits(text)
  }

  lemma ProbeReads(t: Token, text: string, args: seq<Arg>)
    ensures Encode(Probe(t, text)) == Symbols(t) + Lift(text)
    ensures Expected(Probe(t, text), args) == Expected([t], args) + text
  {
    EncodeLits(text);
    ExpectedLits(text, args);
    assert Probe(t, text)[0] == t && Probe(t, text)[1..] == Lits(text);
    EncodeFirst(Probe(t, text));
    ExpectedFirst(Probe(t, text), args);
    ExpectedFirst([t], args);
    assert [t][1..] == [] && Expected([], args) == "";
    hide Encode;
    hide Expected;
    hide Symbols;
    hide Lift;
    hide Lits;
  }

  lemma EncodeFirst(tokens: seq<Token>)
    requires tokens != []
    ensures Encode(tokens) == Symbols(tokens[0]) + Encode(tokens[1..])
  {
  }

  /** The text of the first token, then the rest. */
  lemma ExpectedFirst(tokens: seq<Token>, args: seq<Arg>)
    requires tokens != []
    ensures Expected(tokens, args) == Expected([tokens[0]], args) + Expected(tokens[1..], args)
  {
    assert [tokens[0]][1..] == [] && Expected([], args) == "";
  }

  /** Arguments without a hole in the text, none of which reopens one, leave it alone. */
  lemma {:induction false} ReplaceAllMisses(tokens: seq<Token>, args: seq<Arg>)
    requires Plain(tokens) && SparedByAll(tokens, args)
    requires forall j :: 0 <= j < |args| ==> BraceFree(args[j].key) && Hole(args[j].key) !in tokens
    ensures ReplaceAll(Encode(tokens), args) == Encode(tokens)
    decreases |args|
  {
    if args != [] {
      ReplaceIsFillAnyway(tokens, args[0]);
      assert Fill(tokens, args[0]) == tokens;
      forall j | 0 <= j < |args[1..]| ensures SpellsItself(args[1..][j]) || Spared(tokens, args[1..][j].key) {
        assert args[1..][j] == args[j + 1];
      }
      ReplaceAllMisses(tokens, args[1..]);
    }
  }

  /** The literal text that completes the hole which the brace at `p` has begun. */
  function Completion(val: string, p: nat, key: string): string
    requires p < |val|
  {
    var t, hole := val[p + 1..], key + "}";
    if t <= hole then hole[|t|..] else ""
  }

  lemma CompletionOpensTheHole(val: string, p: nat, key: string)
    requires p < |val| && val[p] == '{' && !Apart(val[p + 1..], key + "}")
    ensures Occurs(Lift(val + Completion(val, p, key)), Pattern(key))
  {
    var t, hole, text := val[p + 1..], key + "}", val + Completion(val, p, key);
    assert text[p] == '{';
    assert hole <= text[p + 1..] by {
      if t <= hole { assert text[p + 1..] == t + hole[|t|..] == hole; } else { assert text[p + 1..] == t; }
    }
    var s := Lift(text);
    forall i | 0 <= i < |Pattern(key)| ensures Pattern(key)[i] == s[p..][i] {
      if i > 0 { assert Pattern(key)[i] == Ch(hole[i - 1]) && text[p + 1..][i - 1] == hole[i - 1]; }
    }
    assert OccursAt(s, Pattern(key), p);
  }

  lemma ProbeIsWellFormed(key: string, val: string, p: nat, later: string)
    requires HoleKey(key) && HoleKey(later) && p < |val|
    ensures WellFormed(Probe(Hole(key), Completion(val, p, later)))
  {
    var text, hole := Completion(val, p, later), later + "}";
    var tokens := Probe(Hole(key), text);
    forall i | 0 <= i < |text|
      ensures text[i] != '{' && (i > 0 && text[i - 1] == '\\' ==> text[i] != '}')
    {
      var n := |hole| - |text|;
      assert text[i] == hole[n + i];
      if n + i < |later| { assert hole[n + i] == later[n + i] && later[n + i] in later; }
      if i > 0 { assert text[i - 1] == hole[n + i - 1] == later[n + i - 1]; }
    }
    forall i | 0 <= i < |tokens|
      ensures && !tokens[i].Filled?
              && (tokens[i].Lit? ==> tokens[i].c != '{')
              && (tokens[i].Hole? ==> HoleKey(tokens[i].key))
              && (i > 0 && tokens[i - 1] == Lit('\\') ==> !tokens[i].Hole? && tokens[i] != Lit('}'))
    {
      if i > 0 {
        assert tokens[i] == Lit(text[i - 1]);
        if i > 1 { assert tokens[i - 1] == Lit(text[i - 2]); }
      }
    }
  }

  // ------------------------------------------------------------- the law fails

  lemma {:induction false} InsertKeepsDistinct(a: Arg, sorted: seq<Arg>)
    requires DistinctKeys(sorted) && forall x :: x in sorted ==> x.key != a.key
    ensures DistinctKeys(Insert(a, sorted))
  {
    if sorted != [] && |a.key| < |sorted[0].key| {
      InsertKeepsDistinct(a, sorted[1..]);
      InsertAdds(a, sorted[1..]);
      var rest := Insert(a, sorted[1..]);
      forall k | 0 <= k < |rest| ensures rest[k].key != sorted[0].key {
        assert rest[k] in multiset(rest);
        assert rest[k] == a || rest[k] in sorted[1..];
      }
    }
  }

  lemma {:induction false} SortKeepsDistinct(args: seq<Arg>)
    requires DistinctKeys(args)
    ensures DistinctKeys(SortByKeyLength(args))
  {
    if args != [] {
      SortKeepsDistinct(args[1..]);
      SortedByKeyLength(args[1..]);
      var sorted := SortByKeyLength(args[1..]);
      forall x | x in sorted ensures x.key != args[0].key {
        assert x in multiset(sorted) && x in multiset(args[1..]);
      }
      InsertKeepsDistinct(args[0], sorted);
    }
  }

  predicate HoleKeys(args: seq<Arg>) {
    forall i :: 0 <= i < |args| ==> HoleKey(args[i].key)
  }

  lemma SortKeepsHoleKeys(args: seq<Arg>)
    requires HoleKeys(args)
    ensures HoleKeys(SortByKeyLength(args))
  {
    SortedByKeyLength(args);
    var sorted := SortByKeyLength(args);
    forall i | 0 <= i < |sorted| ensures HoleKey(sorted[i].key) {
      assert sorted[i] in multiset(sorted) && sorted[i] in multiset(args);
    }
  }

  /** The law, for one list of arguments and all templates. */
  ghost predicate LawHolds(args: seq<Arg>) {
    forall tokens :: WellFormed(tokens) ==> Formatted(Render(tokens), args) == Expected(tokens, args)
  }

  /** What a later argument may make of the text without its change being undone again. */
  predicate CannotBeUndone(sorted: seq<Arg>, j: nat) {
    j + 1 == |sorted| || forall k :: j <= k < |sorted| ==> '{' !in sorted[k].val
  }

  lemma ProbeIsPlain(t: Token, text: string)
    requires '{' !in text && (t.Hole? ==> BraceFree(t.key)) && !t.Lit?
    ensures Plain(Probe(t, text))
    ensures forall key :: Hole(key) in Probe(t, text) ==> t == Hole(key)
    ensures forall key :: (t.Filled? ==> Safe(t.val, key)) ==> Spared(Probe(t, text), key)
  {
    var tokens := Probe(t, text);
    assert forall i :: 0 < i < |tokens| ==> tokens[i] == Lit(text[i - 1]) && text[i - 1] in text;
  }

  lemma EmptyProbe(a: Arg, pre: seq<Arg>, text: string)
    requires HoleKey(a.key) && HoleKeys(pre) && '{' !in text
    requires forall k :: 0 <= k < |pre| ==> pre[k].key != a.key
    ensures ReplaceAll(Encode(Probe(Hole(a.key), text)), pre) == Encode(Probe(Hole(a.key), text))
  {
    ProbeIsPlain(Hole(a.key), text);
    ReplaceAllMisses(Probe(Hole(a.key), text), pre);
  }

  lemma FullProbe(a: Arg, mid: seq<Arg>, text: string)
    requires HoleKeys(mid) && '{' !in text
    requires forall k :: 0 <= k < |mid| ==> Undisturbed(a, mid[k])
    ensures ReplaceAll(Encode(Probe(Filled(a.val), text)), mid) == Encode(Probe(Filled(a.val), text))
  {
    ProbeIsPlain(Filled(a.val), text);
    ReplaceAllMisses(Probe(Filled(a.val), text), mid);
  }

  lemma FillProbe(a: Arg, text: string)
    requires HoleKey(a.key) && '{' !in text
    ensures Replace(Encode(Probe(Hole(a.key), text)), Pattern(a.key), Lift(a.val)) == Encode(Probe(Filled(a.val), text))
  {
    ProbeIsPlain(Hole(a.key), text);
    ReplaceIsFillAnyway(Probe(Hole(a.key), text), a);
    assert Fill(Probe(Hole(a.key), text), a) == Probe(Filled(a.val), text);
  }

  /** The text of a filled probe, up to the argument that reopens the hole. */
  lemma ProbeUpTo(sorted: seq<Arg>, i: nat, j: nat, text: string)
    requires i < j <= |sorted| && HoleKeys(sorted) && DistinctKeys(sorted) && '{' !in text
    requires forall k :: i < k < j ==> Undisturbed(sorted[i], sorted[k])
    ensures ReplaceAll(Encode(Probe(Hole(sorted[i].key), text)), sorted[..j]) == Lift(sorted[i].val + text)
  {
    hide *;
    PartsOfSorted(sorted, i, j);
    ProbeThrough(sorted[i], sorted[..i], sorted[i + 1..j], text);
    SlicedAt(sorted, i, j);
  }

  lemma SlicedAt(s: seq<Arg>, i: nat, j: nat)
    requires i < j <= |s|
    ensures s[..j] == s[..i] + ([s[i]] + s[i + 1..j])
  {
  }

  /** The arguments before `a` miss the probe, `a` fills it, and those after it leave it alone. */
  lemma ProbeThrough(a: Arg, pre: seq<Arg>, mid: seq<Arg>, text: string)
    requires HoleKey(a.key) && HoleKeys(pre) && HoleKeys(mid) && '{' !in text
    requires forall k :: 0 <= k < |pre| ==> pre[k].key != a.key
    requires forall k :: 0 <= k < |mid| ==> Undisturbed(a, mid[k])
    ensures ReplaceAll(Encode(Probe(Hole(a.key), text)), pre + ([a] + mid)) == Lift(a.val + text)
  {
    hide *;
    var start := Encode(Probe(Hole(a.key), text));
    EmptyProbe(a, pre, text);
    FillProbe(a, text);
    FullProbe(a, mid, text);
    ReplaceAllInParts(start, pre, [a] + mid);
    ReplaceAllFirst(start, a, mid);
    ProbeReads(Filled(a.val), text, []);
    SymbolsOfFilled(a.val);
    LiftConcat(a.val, text);
  }

  lemma PartsOfSorted(sorted: seq<Arg>, i: nat, j: nat)
    requires i < j <= |sorted| && HoleKeys(sorted) && DistinctKeys(sorted)
    requires forall k :: i < k < j ==> Undisturbed(sorted[i], sorted[k])
    ensures HoleKey(sorted[i].key) && HoleKeys(sorted[..i]) && HoleKeys(sorted[i + 1..j])
    ensures var pre := sorted[..i]; forall k :: 0 <= k < |pre| ==> pre[k].key != sorted[i].key
    ensures var mid := sorted[i + 1..j]; forall k :: 0 <= k < |mid| ==> Undisturbed(sorted[i], mid[k])
  {
    hide HoleKey;
    hide Undisturbed;
    var mid := sorted[i + 1..j];
    assert forall k :: 0 <= k < |mid| ==> mid[k] == sorted[i + 1 + k];
  }

  lemma SymbolsOfFilled(val: string)
    ensures Symbols(Filled(val)) == Lift(val)
  {
  }

  lemma ReplaceAllFirst(s: Text, a: Arg, rest: seq<Arg>)
    ensures ReplaceAll(s, [a] + rest) == ReplaceAll(Replace(s, Pattern(a.key), Lift(a.val)), rest)
  {
    assert ([a] + rest)[1..] == rest;
  }

  /** Once a brace is gone, or the last change is made, the text is not what it was. */
  lemma ChangeStays(s: Text, rest: seq<Arg>)
    requires rest != [] && Characters(s) && Occurs(s, Pattern(rest[0].key)) && !SpellsItself(rest[0])
    requires CannotBeUndone(rest, 0)
    ensures Unescaped(ReplaceAll(s, rest)) != Unescaped(s)
  {
    var sub, pattern := Lift(rest[0].val), Pattern(rest[0].key);
    var changed := Replace(s, pattern, sub);
    LiftedPattern(rest[0].key);
    LiftedPattern("{" + rest[0].key + "}");
    LiftedPattern(rest[0].val);
    ReplaceChanges(s, pattern, sub);
    if |rest| > 1 {
      NoOpens(rest[0].val);
      OpensDrop(s, rest[0].key, sub);
      forall k | 0 <= k < |rest[1..]| ensures '{' !in rest[1..][k].val { assert rest[1..][k] == rest[k + 1]; }
      OpensOnlyDrop(changed, rest[1..]);
    } else {
      assert rest[1..] == [];
    }
    ReplaceAllKeepsCharacters(s, rest);
    UnescapedCharacters(s);
    UnescapedCharacters(ReplaceAll(s, rest));
  }

  lemma ProbeFormatted(args: seq<Arg>, i: nat, j: nat, text: string)
    requires DistinctKeys(args) && HoleKeys(args) && '{' !in text
    requires var sorted := SortByKeyLength(args);
             && i < j < |sorted| && WellFormed(Probe(Hole(sorted[i].key), text))
             && forall k :: i < k < j ==> Undisturbed(sorted[i], sorted[k])
    ensures var sorted := SortByKeyLength(args);
            Formatted(Render(Probe(Hole(sorted[i].key), text)), args) ==
            Unescaped(ReplaceAll(Lift(sorted[i].val + text), sorted[j..]))
  {
    hide *;
    var sorted := SortByKeyLength(args);
    SortedFromSome(args);
    var tokens := Probe(Hole(sorted[i].key), text);
    SortKeepsDistinct(args);
    SortKeepsHoleKeys(args);
    EscapedIsEncoded(tokens);
    ProbeUpTo(sorted, i, j, text);
    assert sorted == sorted[..j] + sorted[j..];
    ReplaceAllInParts(Encode(tokens), sorted[..j], sorted[j..]);
    FormattedUnfolds(Render(tokens), args);
  }

  lemma SortedFromSome(args: seq<Arg>)
    requires SortByKeyLength(args) != []
    ensures args != []
  {
  }

  lemma FormattedUnfolds(template: string, args: seq<Arg>)
    requires args != []
    ensures Formatted(template, args) == Unescaped(ReplaceAll(Escaped(template), SortByKeyLength(args)))
  {
  }

  lemma ProbeExpected(args: seq<Arg>, i: nat, text: string)
    requires DistinctKeys(args) && i < |SortByKeyLength(args)|
    ensures var a := SortByKeyLength(args)[i]; Expected(Probe(Hole(a.key), text), args) == a.val + text
  {
    var sorted := SortByKeyLength(args);
    var a := sorted[i];
    SortKeepsDistinct(args);
    LookupFinds(sorted, a.key);
    SortKeepsLookup(args, a.key);
    ProbeReads(Hole(a.key), text, args);
    assert [Hole(a.key)][1..] == [];
    assert Expected([Hole(a.key)], args) == a.val + Expected([], args) == a.val;
  }

  /** A value that reopens a later hole breaks the law on its probe. */
  lemma ReopeningBreaksTheLaw(args: seq<Arg>, i: nat, j: nat, p: nat)
    requires DistinctKeys(args) && HoleKeys(args)
    requires var sorted := SortByKeyLength(args);
             && i < j < |sorted| && !SpellsItself(sorted[j]) && CannotBeUndone(sorted, j)
             && p < |sorted[i].val| && sorted[i].val[p] == '{' && !Apart(sorted[i].val[p + 1..], sorted[j].key + "}")
             && forall k :: i < k < j ==> Undisturbed(sorted[i], sorted[k])
    ensures !LawHolds(args)
  {
    var sorted := SortByKeyLength(args);
    var a, b, rest := sorted[i], sorted[j], sorted[j..];
    var text := Completion(a.val, p, b.key);
    SortKeepsHoleKeys(args);
    ProbeIsWellFormed(a.key, a.val, p, b.key);
    CompletionHasNoBrace(a.val, p, b.key);
    ProbeFormatted(args, i, j, text);
    ProbeExpected(args, i, text);
    CompletionOpensTheHole(a.val, p, b.key);
    assert rest[0] == b && CannotBeUndone(rest, 0) by {
      assert forall k :: 0 <= k < |rest| ==> rest[k] == sorted[j + k];
    }
    ChangeStays(Lift(a.val + text), rest);
    LiftedPattern(a.val + text);
    hide Occurs;
    hide ReplaceAll;
    hide Completion;
    hide Probe;
    hide Unescaped;
    hide Expected;
    hide Render;
    hide Formatted;
    var tokens := Probe(Hole(a.key), text);
    assert WellFormed(tokens) && Formatted(Render(tokens), args) != Expected(tokens, args);
  }

  lemma CompletionHasNoBrace(val: string, p: nat, key: string)
    requires p < |val| && BraceFree(key)
    ensures '{' !in Completion(val, p, key)
  {
    forall c | c in Completion(val, p, key) ensures c != '{' {
      assert c in key + "}";
    }
  }

  // ------------------------------------------------------- the exact condition

  /** No value after the i-th holds a brace, or only one argument follows it. */
  predicate LastToOpen(sorted: seq<Arg>, i: nat) {
    i < |sorted| && (i + 2 == |sorted| || forall k :: i < k < |sorted| ==> '{' !in sorted[k].val)
  }

  ghost predicate UndisturbedFrom(sorted: seq<Arg>, i: nat)
    requires i < |sorted|
  {
    forall j :: i < j < |sorted| ==> Undisturbed(sorted[i], sorted[j])
  }

  lemma {:induction false} FirstDisturbed(sorted: seq<Arg>, i: nat, j: nat) returns (first: nat)
    requires i < j < |sorted| && !Undisturbed(sorted[i], sorted[j])
    ensures i < first <= j && !Undisturbed(sorted[i], sorted[first])
    ensures forall k :: i < k < first ==> Undisturbed(sorted[i], sorted[k])
    decreases j
  {
    first := j;
    if k :| i < k < j && !Undisturbed(sorted[i], sorted[k]) {
      first := FirstDisturbed(sorted, i, k);
    }
  }

  /**
   The exact condition.  Take arguments with distinct keys, in the order in which they are
   replaced, and let i be the last one whose value holds a brace (or the last but one).  If
   the values before it reopen nothing, then replacement is substitution for every
   template if and only if no brace in the i-th value begins a hole of a later argument,
   by itself or together with text after it.
   */
  lemma LawHoldsExactly(args: seq<Arg>, i: nat)
    requires DistinctKeys(args) && HoleKeys(args) && LastToOpen(SortByKeyLength(args), i)
    requires forall h :: 0 <= h < i ==> UndisturbedFrom(SortByKeyLength(args), h)
    ensures LawHolds(args) <==> UndisturbedFrom(SortByKeyLength(args), i)
  {
    var sorted := SortByKeyLength(args);
    SortKeepsHoleKeys(args);
    if UndisturbedFrom(sorted, i) {
      forall h, j | 0 <= h < j < |sorted| ensures Undisturbed(sorted[h], sorted[j]) {
        if h <= i { assert UndisturbedFrom(sorted, h); }
      }
      assert Substitutable(args);
      assert args != [];
      forall tokens | WellFormed(tokens) ensures Formatted(Render(tokens), args) == Expected(tokens, args) {
        FormattingIsSubstitution(tokens, args);
      }
    } else {
      var j: nat :| i < j < |sorted| && !Undisturbed(sorted[i], sorted[j]);
      var first := FirstDisturbed(sorted, i, j);
      var p: nat :| p < |sorted[i].val| && sorted[i].val[p] == '{' && !Apart(sorted[i].val[p + 1..], sorted[first].key + "}");
      ReopeningBreaksTheLaw(args, i, first, p);
    }
  }

  /** Of two arguments, without any further condition. */
  lemma LawForTwoExactly(args: seq<Arg>)
    requires |args| == 2 && DistinctKeys(args) && HoleKeys(args)
    ensures LawHolds(args) <==> Substitutable(args)
  {
    var sorted := SortByKeyLength(args);
    SortedByKeyLength(args);
    assert |multiset(sorted)| == |multiset(args)|;
    SortKeepsHoleKeys(args);
    LawHoldsExactly(args, 0);
    assert UndisturbedFrom(sorted, 0) <==> Undisturbed(sorted[0], sorted[1]);
  }

  // ----------------------------------------------------------- two illustrations

  lemma SortTwo(a: Arg, b: Arg)
    requires |a.key| >= |b.key|
    ensures SortByKeyLength([a, b]) == [a, b]
  {
    assert [a, b][1..] == [b] && [b][1..] == [];
    assert SortByKeyLength([b]) == Insert(b, SortByKeyLength([])) == [b];
  }

  lemma ReplaceTwo(s: Text, a: Arg, b: Arg)
    ensures ReplaceAll(s, [a, b]) == Replace(Replace(s, Pattern(a.key), Lift(a.val)), Pattern(b.key), Lift(b.val))
  {
    hide Replace;
    var s' := Replace(s, Pattern(a.key), Lift(a.val));
    assert [a, b][1..] == [b] && [b][1..] == [];
    assert ReplaceAll(s', [b]) == ReplaceAll(Replace(s', Pattern(b.key), Lift(b.val)), []);
  }

  lemma OneHole(key: string)
    requires HoleKey(key)
    ensures WellFormed([Hole(key)]) && Encode([Hole(key)]) == Pattern(key) && Escaped(Render([Hole(key)])) == Pattern(key)
  {
    assert [Hole(key)][1..] == [];
    EscapedIsEncoded([Hole(key)]);
  }

  lemma ReplaceOwnPattern(a: Arg)
    ensures Replace(Pattern(a.key), Pattern(a.key), Lift(a.val)) == Lift(a.val)
  {
    ReplaceAtOwnHole(a, []);
    assert Pattern(a.key) + [] == Pattern(a.key) && Lift(a.val) + [] == Lift(a.val);
  }

  lemma FilledTwice(a: Arg, b: Arg)
    requires HoleKey(a.key) && HoleKey(b.key) && |a.key| >= |b.key| && a.val == "{" + b.key + "}"
    ensures Formatted(Render([Hole(a.key)]), [a, b]) == b.val
  {
    SortTwo(a, b);
    OneHole(a.key);
    ReplaceTwo(Pattern(a.key), a, b);
    ReplaceOwnPattern(a);
    ReplaceOwnPattern(b);
    LiftedPattern(b.key);
    LiftedPattern(b.val);
    hide Replace;
    hide Pattern;
    hide Lift;
    hide Escaped;
    hide Unescaped;
    hide SortByKeyLength;
  }

  /**
   Where the law fails the order of the arguments matters: a hole inside the value of `a` is
   replaced in turn when `b` comes later, and stays when `b` came first.
   */
  lemma ReopenedHoleIsReplaced(a: Arg, b: Arg)
    requires HoleKey(a.key) && HoleKey(b.key) && |a.key| == |b.key| && a.key != b.key
    requires a.val == "{" + b.key + "}" && '{' !in b.val
    ensures var template := Render([Hole(a.key)]);
            && Formatted(template, [a, b]) == b.val
            && Formatted(template, [b, a]) == a.val != b.val
  {
    FilledTwice(a, b);
    SortTwo(b, a);
    OneHole(a.key);
    assert NothingReopened([b, a]);
    FormattingIsSubstitution([Hole(a.key)], [b, a]);
    assert Expected([Hole(a.key)], [b, a]) == a.val by {
      assert [b, a][1..] == [a] && [Hole(a.key)][1..] == [];
      assert Lookup([b, a], a.key) == Lookup([a], a.key) == Some(a.val);
      assert Expected([], [b, a]) == "" && a.val + "" == a.val;
    }
    assert a.val[0] == '{';
  }

  // -- three arguments whose changes cancel out

  /** The value of the first and third argument: it reopens the second one's hole. */
  function Reopening(x: string, b: string): string {
    "{" + x + ("{" + b + "}")
  }

  function Cancelling(a: string, b: string, x: string, y: string): seq<Arg> {
    [Arg(a, Reopening(x, b)), Arg(b, y + "}"), Arg(x + y, Reopening(x, b))]
  }

  predicate CancellingKeys(a: string, b: string, x: string, y: string) {
    && HoleKey(a) && HoleKey(b) && HoleKey(x + y)
    && a != b && a != x + y && b != x + y
    && |a| >= |b| >= |x + y|
  }

  lemma SortThree(a: Arg, b: Arg, c: Arg)
    requires |a.key| >= |b.key| >= |c.key|
    ensures SortByKeyLength([a, b, c]) == [a, b, c]
  {
    assert [a, b, c][1..] == [b, c];
    SortTwo(b, c);
  }

  /** Replacing `b` in the reopened value leaves the hole of the third argument. */
  lemma ReopenedBecomesHole(b: string, x: string, y: string, rest: Text)
    requires HoleKey(b) && HoleKey(x + y)
    ensures Replace(Lift(Reopening(x, b)) + rest, Pattern(b), Lift(y + "}"))
         == Pattern(x + y) + Replace(rest, Pattern(b), Lift(y + "}"))
  {
    var sub, v := Lift(y + "}"), Reopening(x, b);
    var done := Replace(rest, Pattern(b), sub);
    var middle := Pattern(b) + rest;
    assert BraceFree(x) by { assert forall c :: c in x ==> c in x + y; }
    ReopeningReads(x, b, rest);
    ReplaceAtOwnHole(Arg(b, y + "}"), rest);
    OpenTextIsCopied(b, x, middle, sub);
    SpellsThird(x, y);
    hide Replace;
    hide Pattern;
    hide Lift;
    hide Reopening;
    assert Lift("{" + x) + (sub + done) == (Lift("{" + x) + sub) + done;
  }

  lemma ReopeningReads(x: string, b: string, rest: Text)
    ensures Lift(Reopening(x, b)) + rest == Lift("{" + x) + (Pattern(b) + rest)
  {
    LiftConcat("{" + x, "{" + b + "}");
    LiftedPattern(b);
    hide Pattern;
    hide Lift;
    assert (Lift("{" + x) + Pattern(b)) + rest == Lift("{" + x) + (Pattern(b) + rest);
  }

  lemma SpellsThird(x: string, y: string)
    ensures Lift("{" + x) + Lift(y + "}") == Pattern(x + y)
  {
    LiftedPattern(x + y);
    LiftConcat("{" + x, y + "}");
    assert "{" + (x + y) + "}" == ("{" + x) + (y + "}");
  }

  lemma OpenTextIsCopied(b: string, x: string, middle: Text, sub: Text)
    requires BraceFree(b) && BraceFree(x) && middle != [] && middle[0] == Ch('{')
    ensures Replace(Lift("{" + x) + middle, Pattern(b), sub) == Lift("{" + x) + Replace(middle, Pattern(b), sub)
  {
    var all := Lift("{" + x) + middle;
    NoMatchBefore(b, x, middle);
    assert all[0] == Ch('{') && all[1..] == Lift(x) + middle;
    assert Ch('{') !in Lift(x);
    SkipNonBraces(Lift(x), middle, b, sub);
    assert Replace(all, Pattern(b), sub) == [all[0]] + Replace(all[1..], Pattern(b), sub);
    assert Lift("{" + x) == [Ch('{')] + Lift(x);
    hide Replace;
    hide Pattern;
    hide Lift;
  }

  lemma NoMatchBefore(b: string, x: string, middle: Text)
    requires BraceFree(b) && BraceFree(x) && middle != [] && middle[0] == Ch('{')
    ensures !(Pattern(b) <= Lift("{" + x) + middle)
  {
    var all, p := Lift("{" + x) + middle, Pattern(b);
    assert all[|x| + 1] == Ch('{');
    if |x| < |b| {
      assert p[|x| + 1] == Ch(b[|x|]) && b[|x|] in b;
    } else if |x| == |b| {
      assert p[|x| + 1] == Ch('}');
    } else {
      assert p[|b| + 1] == Ch('}');
      assert all[|b| + 1] == Ch(x[|b|]) && x[|b|] in x;
    }
  }

  /** What the second replacement makes of a token: the reopened value turns into the third hole. */
  function Turned(t: Token, args: seq<Arg>): Token
    requires |args| == 3
  {
    if t == Filled(args[0].val) then Hole(args[2].key) else FillOne(t, args[1])
  }

  function TurnedAll(tokens: seq<Token>, args: seq<Arg>): (turned: seq<Token>)
    requires |args| == 3
    ensures |turned| == |tokens| && forall i :: 0 <= i < |tokens| ==> turned[i] == Turned(tokens[i], args)
  {
    if tokens == [] then [] else [Turned(tokens[0], args)] + TurnedAll(tokens[1..], args)
  }

  lemma {:induction false} SecondReplacementTurns(tokens: seq<Token>, a: string, b: string, x: string, y: string)
    requires CancellingKeys(a, b, x, y) && Plain(tokens)
    requires forall t :: t in tokens && t.Filled? ==> t.val == Reopening(x, b)
    ensures Replace(Encode(tokens), Pattern(b), Lift(y + "}")) == Encode(TurnedAll(tokens, Cancelling(a, b, x, y)))
    decreases |tokens|
  {
    if tokens != [] {
      var t, rest := tokens[0], Encode(tokens[1..]);
      SecondReplacementTurns(tokens[1..], a, b, x, y);
      assert t in tokens;
      if t.Filled? {
        ReopenedBecomesHole(b, x, y, rest);
      } else {
        ReplaceAtToken(t, Arg(b, y + "}"), rest);
      }
      hide Replace;
      hide Pattern;
      hide Reopening;
    }
  }

  /**
   Why the condition is not necessary for more arguments: here the first value reopens the
   second hole, but that replacement happens to spell the third hole, whose value is the
   first value again.  The law holds for every template although `Substitutable` fails.
   */
  lemma ChangesCanCancelOut(a: string, b: string, x: string, y: string)
    requires CancellingKeys(a, b, x, y)
    ensures DistinctKeys(Cancelling(a, b, x, y)) && HoleKeys(Cancelling(a, b, x, y))
    ensures !Substitutable(Cancelling(a, b, x, y))
    ensures LawHolds(Cancelling(a, b, x, y))
  {
    var args := Cancelling(a, b, x, y);
    SortThree(args[0], args[1], args[2]);
    ReopensIndeed(a, b, x, y);
    forall tokens | WellFormed(tokens) ensures Formatted(Render(tokens), args) == Expected(tokens, args) {
      CancelledOut(tokens, a, b, x, y);
    }
  }

  lemma ReopensIndeed(a: string, b: string, x: string, y: string)
    requires CancellingKeys(a, b, x, y)
    ensures var args := Cancelling(a, b, x, y); !Undisturbed(args[0], args[1])
  {
    var args := Cancelling(a, b, x, y);
    var v, p := args[0].val, |x| + 1;
    assert v[p] == '{' && v[p + 1..] == b + "}";
    assert '{' !in args[1].val by { assert forall c :: c in y ==> c in x + y; }
    assert ("{" + b + "}")[0] == '{';
  }

  lemma CancelledOut(tokens: seq<Token>, a: string, b: string, x: string, y: string)
    requires CancellingKeys(a, b, x, y) && WellFormed(tokens)
    ensures Formatted(Render(tokens), Cancelling(a, b, x, y)) == Expected(tokens, Cancelling(a, b, x, y))
  {
    var args := Cancelling(a, b, x, y);
    FormattedUnfolds(Render(tokens), args);
    EscapedIsEncoded(tokens);
    TextCancelsOut(tokens, a, b, x, y);
    UnescapedIsExpected(FillAll(tokens, args));
    FillAllIsExpected(tokens, args);
    hide *;
    assert SortByKeyLength(args) == args by { ThreeArguments(a, b, x, y); }
  }

  lemma ThreeArguments(a: string, b: string, x: string, y: string)
    requires CancellingKeys(a, b, x, y)
    ensures SortByKeyLength(Cancelling(a, b, x, y)) == Cancelling(a, b, x, y)
  {
    var args := Cancelling(a, b, x, y);
    SortThree(args[0], args[1], args[2]);
  }

  lemma TextCancelsOut(tokens: seq<Token>, a: string, b: string, x: string, y: string)
    requires CancellingKeys(a, b, x, y) && WellFormed(tokens)
    ensures ReplaceAll(Encode(tokens), Cancelling(a, b, x, y)) == Encode(FillAll(tokens, Cancelling(a, b, x, y)))
  {
    var args := Cancelling(a, b, x, y);
    var one := Fill(tokens, args[0]);
    var two := TurnedAll(one, args);
    ReplaceIsFillAnyway(tokens, args[0]);
    OnlyFirstFilled(tokens, a, b, x, y);
    SecondReplacementTurns(one, a, b, x, y);
    TurnedIsSpared(tokens, a, b, x, y);
    ReplaceIsFillAnyway(two, args[2]);
    ThreeFills(tokens, a, b, x, y);
    ReplaceThree(Encode(tokens), args[0], args[1], args[2]);
    hide Replace;
    hide ReplaceAll;
    hide Encode;
    hide Fill;
    hide FillAll;
    hide TurnedAll;
    hide Pattern;
    hide Reopening;
    hide CancellingKeys;
    hide WellFormed;
  }

  lemma OnlyFirstFilled(tokens: seq<Token>, a: string, b: string, x: string, y: string)
    requires CancellingKeys(a, b, x, y) && WellFormed(tokens)
    ensures var one := Fill(tokens, Cancelling(a, b, x, y)[0]);
            Plain(one) && forall t :: t in one && t.Filled? ==> t.val == Reopening(x, b)
  {
    var args := Cancelling(a, b, x, y);
    var one := Fill(tokens, args[0]);
    forall i | 0 <= i < |one| && one[i].Filled? ensures one[i].val == Reopening(x, b) {
      assert one[i] == FillOne(tokens[i], args[0]);
    }
  }

  lemma TurnedIsSpared(tokens: seq<Token>, a: string, b: string, x: string, y: string)
    requires CancellingKeys(a, b, x, y) && WellFormed(tokens)
    ensures var args := Cancelling(a, b, x, y);
            var two := TurnedAll(Fill(tokens, args[0]), args);
            Plain(two) && Spared(two, x + y)
  {
    var args := Cancelling(a, b, x, y);
    var one := Fill(tokens, args[0]);
    var two := TurnedAll(one, args);
    assert '{' !in args[1].val by { assert forall c :: c in y ==> c in x + y; }
    forall i | 0 <= i < |two|
      ensures (two[i].Lit? ==> two[i].c != '{') && (two[i].Hole? ==> BraceFree(two[i].key))
      ensures two[i].Filled? ==> two[i].val == args[1].val
    {
      assert two[i] == Turned(one[i], args) && one[i] == FillOne(tokens[i], args[0]);
    }
  }

  lemma ThreeFills(tokens: seq<Token>, a: string, b: string, x: string, y: string)
    requires CancellingKeys(a, b, x, y) && WellFormed(tokens)
    ensures var args := Cancelling(a, b, x, y);
            Fill(TurnedAll(Fill(tokens, args[0]), args), args[2]) == FillAll(tokens, args)
  {
    var args := Cancelling(a, b, x, y);
    assert args[1..] == [args[1], args[2]] && args[1..][1..] == [args[2]] && args[1..][1..][1..] == [];
    assert FillAll(tokens, args) == FillAll(Fill(tokens, args[0]), args[1..]);
    var one := Fill(tokens, args[0]);
    assert FillAll(one, args[1..]) == FillAll(Fill(one, args[1]), args[1..][1..]);
    var two := Fill(one, args[1]);
    assert FillAll(two, [args[2]]) == FillAll(Fill(two, args[2]), []) == Fill(two, args[2]);
  }

  lemma ReplaceThree(s: Text, a: Arg, b: Arg, c: Arg)
    ensures ReplaceAll(s, [a, b, c])
         == Replace(Replace(Replace(s, Pattern(a.key), Lift(a.val)), Pattern(b.key), Lift(b.val)), Pattern(c.key), Lift(c.val))
  {
    hide Replace;
    assert [a, b, c][1..] == [b, c];
    ReplaceTwo(Replace(s, Pattern(a.key), Lift(a.val)), b, c);
  }
}
