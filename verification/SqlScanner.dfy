/** How a statement is recognised as a write before it is routed. */
module SqlScanner {

  predicate StartsWith(s: string, prefix: string) {
    prefix <= s
  }

  predicate StartsKeyword(s: string) {
    StartsWith(s, "INSERT ") || StartsWith(s, "UPDATE ") || StartsWith(s, "DELETE ") || StartsWith(s, "REPLACE ")
  }

  /** Parenthesis depth, clamped at 0. */
  function NextDepth(depth: nat, c: char): nat {
    if c == '(' then depth + 1 else if c == ')' && depth > 0 then depth - 1 else depth
  }

  function DepthAfter(depth: nat, s: string): nat
    decreases |s|
  {
    if s == [] then depth else DepthAfter(NextDepth(depth, s[0]), s[1..])
  }

  /** A write keyword starts at depth 0 somewhere in `s`, which is entered at `depth`. */
  predicate Writes(depth: nat, s: string)
    decreases |s|
  {
    s != [] && ((depth == 0 && StartsKeyword(s)) || Writes(NextDepth(depth, s[0]), s[1..]))
  }

  /** The same, position by position. */
  ghost predicate KeywordAtDepthZero(depth: nat, s: string) {
    exists i :: 0 <= i < |s| && DepthAfter(depth, s[..i]) == 0 && StartsKeyword(s[i..])
  }

  lemma TailSlices(s: string, i: nat)
    requires i < |s|
    ensures s[..i + 1][0] == s[0] && s[..i + 1][1..] == s[1..][..i]
    ensures s[i + 1..] == s[1..][i..]
  {
  }

  lemma {:induction false} WritesIsPositional(depth: nat, s: string)
    ensures Writes(depth, s) <==> KeywordAtDepthZero(depth, s)
    decreases |s|
  {
    hide StartsKeyword;
    if s != [] {
      var d, tail := NextDepth(depth, s[0]), s[1..];
      WritesIsPositional(d, tail);
      assert s[..0] == [] && s[0..] == s;
      if KeywordAtDepthZero(depth, s) {
        var i :| 0 <= i < |s| && DepthAfter(depth, s[..i]) == 0 && StartsKeyword(s[i..]);
        if i > 0 {
          TailSlices(s, i - 1);
          assert DepthAfter(d, tail[..i - 1]) == 0 && StartsKeyword(tail[i - 1..]);
        }
      }
      if KeywordAtDepthZero(d, tail) {
        var i :| 0 <= i < |tail| && DepthAfter(d, tail[..i]) == 0 && StartsKeyword(tail[i..]);
        TailSlices(s, i);
        assert DepthAfter(depth, s[..i + 1]) == 0 && StartsKeyword(s[i + 1..]);
      }
    }
  }

  /** What follows `WITH ` and an optional `RECURSIVE `. */
  function AfterWith(sql: string): string
    requires "WITH " <= sql
  {
    var rest := sql[5..];
    if "RECURSIVE " <= rest then rest[10..] else rest
  }

  lemma ScanStep(depth: nat, s: string)
    requires s != []
    ensures Writes(depth, s) <==> (depth == 0 && StartsKeyword(s)) || Writes(NextDepth(depth, s[0]), s[1..])
    ensures DepthAfter(depth, s) == DepthAfter(NextDepth(depth, s[0]), s[1..])
  {
  }

  lemma KeywordByInitial(s: string)
    requires s != []
    ensures StartsKeyword(s) <==>
            if s[0] == 'I' then StartsWith(s, "INSERT ")
            else if s[0] == 'U' then StartsWith(s, "UPDATE ")
            else if s[0] == 'D' then StartsWith(s, "DELETE ")
            else if s[0] == 'R' then StartsWith(s, "REPLACE ")
            else false
  {
  }

  /** One turn of the loop: a keyword at depth 0 decides, anything else moves on. */
  lemma LoopTurn(depth: nat, s: string, i: nat)
    requires i < |s|
    ensures var hit := depth == 0 && if s[i] == 'I' then StartsWith(s[i..], "INSERT ")
                                     else if s[i] == 'U' then StartsWith(s[i..], "UPDATE ")
                                     else if s[i] == 'D' then StartsWith(s[i..], "DELETE ")
                                     else if s[i] == 'R' then StartsWith(s[i..], "REPLACE ")
                                     else false;
            && (hit ==> Writes(depth, s[i..]))
            && (!hit ==> (Writes(depth, s[i..]) <==> Writes(NextDepth(depth, s[i]), s[i + 1..])))
  {
    hide *;
    assert s[i..][1..] == s[i + 1..];
    ScanStep(depth, s[i..]);
    KeywordByInitial(s[i..]);
  }

  /** The byte scanner, as a loop. */
  method CteMainStmtIsWrite(sql: string) returns (isWrite: bool)
    requires "WITH " <= sql
    ensures isWrite <==> KeywordAtDepthZero(0, AfterWith(sql))
  {
    var rest := sql[5..];
    if "RECURSIVE " <= rest { rest := rest[10..]; }
    WritesIsPositional(0, rest);
    assert rest == AfterWith(sql);
    hide *;
    var depth: nat, i := 0, 0;
    assert rest[0..] == rest;
    while i < |rest|
      invariant 0 <= i <= |rest|
      invariant Writes(0, rest) <==> Writes(depth, rest[i..])
    {
      var remaining := rest[i..];
      LoopTurn(depth, rest, i);
      DepthSteps(depth, rest[i]);
      match rest[i] {
        case '(' => depth := depth + 1;
        case ')' => if depth > 0 { depth := depth - 1; }
        case 'I' => if depth == 0 && StartsWith(remaining, "INSERT ") { return true; }
        case 'U' => if depth == 0 && StartsWith(remaining, "UPDATE ") { return true; }
        case 'D' => if depth == 0 && StartsWith(remaining, "DELETE ") { return true; }
        case 'R' => if depth == 0 && StartsWith(remaining, "REPLACE ") { return true; }
        case _ =>
      }
      i := i + 1;
    }
    assert rest[i..] == [];
    NothingToScan(depth);
    isWrite := false;
  }

  lemma DepthSteps(depth: nat, c: char)
    ensures NextDepth(depth, c) == if c == '(' then depth + 1 else if c == ')' && depth > 0 then depth - 1 else depth
  {
  }

  lemma NothingToScan(depth: nat)
    ensures !Writes(depth, []) && DepthAfter(depth, []) == depth
  {
  }

  function ToUpper(s: string): string {
    seq(|s|, i requires 0 <= i < |s| => if 'a' <= s[i] <= 'z' then s[i] - 'a' + 'A' else s[i])
  }

  /** The Unicode property White_Space. */
  predicate IsWhitespace(c: char) {
    || '\U{0009}' <= c <= '\U{000D}'
    || c in {'\U{0020}', '\U{0085}', '\U{00A0}', '\U{1680}', '\U{2028}', '\U{2029}', '\U{202F}', '\U{205F}', '\U{3000}'}
    || '\U{2000}' <= c <= '\U{200A}'
  }

  function TrimStart(s: string): string {
    if s != [] && IsWhitespace(s[0]) then TrimStart(s[1..]) else s
  }

  /** Trimming leaves the longest suffix that starts with something visible. */
  lemma {:induction false} TrimmedExactly(s: string, n: nat)
    requires n <= |s| && (forall i :: 0 <= i < n ==> IsWhitespace(s[i]))
    requires n < |s| ==> !IsWhitespace(s[n])
    ensures TrimStart(s) == s[n..]
    decreases n
  {
    if n > 0 {
      assert IsWhitespace(s[0]) && s[1..][n - 1..] == s[n..];
      TrimmedExactly(s[1..], n - 1);
    }
  }

  method IsWriteStatement(sql: string) returns (isWrite: bool)
    ensures var up := ToUpper(TrimStart(sql));
            isWrite <==> StartsKeyword(up) || ("WITH " <= up && KeywordAtDepthZero(0, AfterWith(up)))
    ensures forall n: nat :: VisibleFrom(sql, n) ==> (isWrite <==> WriteFrom(sql, n))
  {
    forall n: nat | VisibleFrom(sql, n) { VerdictBySpelling(sql, n); }
    hide WriteFrom;
    hide VisibleFrom;
    if sql == "" { return false; }
    var up := ToUpper(TrimStart(sql));
    if StartsWith(up, "INSERT ") || StartsWith(up, "UPDATE ") || StartsWith(up, "DELETE ") || StartsWith(up, "REPLACE ") {
      return true;
    }
    if "WITH " <= up {
      isWrite := CteMainStmtIsWrite(up);
      return;
    }
    isWrite := false;
  }

  // ------------------------------------------------------- the statement itself

  /** The 25 code points of the Unicode property White_Space. */
  lemma WhitespaceExactly(c: char)
    ensures IsWhitespace(c) <==>
      || 9 <= c as int <= 13 || 8192 <= c as int <= 8202
      || c as int in {32, 133, 160, 5760, 8232, 8233, 8239, 8287, 12288}
  {
  }

  predicate SameLetter(a: char, b: char) {
    a == b || ('a' <= a <= 'z' && b == a - 'a' + 'A') || ('A' <= a <= 'Z' && b == a - 'A' + 'a')
  }

  predicate SameButCase(s: string, t: string) {
    |s| == |t| && forall i :: 0 <= i < |s| ==> SameLetter(s[i], t[i])
  }

  /** `word` stands in `sql` from position `i` on, in any letter case. */
  predicate SpelledAt(sql: string, i: nat, word: string) {
    i + |word| <= |sql| && forall j :: 0 <= j < |word| ==> SameLetter(sql[i + j], word[j])
  }

  predicate Uppercase(s: string) {
    forall i :: 0 <= i < |s| ==> !('a' <= s[i] <= 'z')
  }

  lemma UpperSpells(sql: string, i: nat, word: string)
    requires Uppercase(word) && i <= |sql|
    ensures word <= ToUpper(sql)[i..] <==> SpelledAt(sql, i, word)
  {
    var up := ToUpper(sql);
    if SpelledAt(sql, i, word) {
      forall j | 0 <= j < |word| ensures up[i..][j] == word[j] {
        assert SameLetter(sql[i + j], word[j]);
      }
    } else if i + |word| <= |sql| {
      var j :| 0 <= j < |word| && !SameLetter(sql[i + j], word[j]);
      assert up[i..][j] != word[j];
    }
  }

  lemma {:induction false} DepthIgnoresCase(depth: nat, s: string)
    ensures DepthAfter(depth, ToUpper(s)) == DepthAfter(depth, s)
    decreases |s|
  {
    if s != [] {
      assert ToUpper(s)[1..] == ToUpper(s[1..]) && NextDepth(depth, ToUpper(s)[0]) == NextDepth(depth, s[0]);
      DepthIgnoresCase(NextDepth(depth, s[0]), s[1..]);
    }
  }

  /** One of the four keywords stands in `sql` from position `i` on. */
  ghost predicate KeywordAt(sql: string, i: nat) {
    exists k :: k in ["INSERT ", "UPDATE ", "DELETE ", "REPLACE "] && SpelledAt(sql, i, k)
  }

  /** Where the scan of a `WITH` query at position `n` begins. */
  function QueryStart(sql: string, n: nat): nat {
    n + 5 + if SpelledAt(sql, n + 5, "RECURSIVE ") then 10 else 0
  }

  /** White space up to position `n`, and something visible there unless the text ends. */
  predicate VisibleFrom(sql: string, n: nat) {
    n <= |sql| && (forall i :: 0 <= i < n ==> IsWhitespace(sql[i])) && (n < |sql| ==> !IsWhitespace(sql[n]))
  }

  /** What `IsWriteStatement` answers, in terms of the text as it was written. */
  ghost predicate WriteFrom(sql: string, n: nat) {
    || KeywordAt(sql, n)
    || (SpelledAt(sql, n, "WITH ")
        && exists i :: KeywordOutside(sql, QueryStart(sql, n), i))
  }

  /** A keyword at position `i`, outside all parentheses opened since `start`. */
  ghost predicate KeywordOutside(sql: string, start: nat, i: int) {
    start <= i < |sql| && DepthAfter(0, sql[start..i]) == 0 && KeywordAt(sql, i)
  }

  lemma KeywordBySpelling(sql: string, i: nat)
    requires i <= |sql|
    ensures StartsKeyword(ToUpper(sql)[i..]) <==> KeywordAt(sql, i)
  {
    UpperSpells(sql, i, "INSERT ");
    UpperSpells(sql, i, "UPDATE ");
    UpperSpells(sql, i, "DELETE ");
    UpperSpells(sql, i, "REPLACE ");
    hide ToUpper;
    hide SpelledAt;
    var ks := ["INSERT ", "UPDATE ", "DELETE ", "REPLACE "];
    assert ks[0] in ks && ks[1] in ks && ks[2] in ks && ks[3] in ks;
  }

  lemma PositionBySpelling(sql: string, start: nat, i: nat)
    requires start <= i < |sql|
    ensures var rest := ToUpper(sql)[start..];
            DepthAfter(0, rest[..i - start]) == 0 && StartsKeyword(rest[i - start..]) <==> KeywordOutside(sql, start, i)
  {
    var rest := ToUpper(sql)[start..];
    assert rest[..i - start] == ToUpper(sql[start..i]);
    DepthIgnoresCase(0, sql[start..i]);
    assert rest[i - start..] == ToUpper(sql)[i..];
    KeywordBySpelling(sql, i);
    hide DepthAfter;
    hide StartsKeyword;
    hide KeywordAt;
    hide ToUpper;
  }

  lemma ScanBySpelling(sql: string, start: nat)
    requires start <= |sql|
    ensures KeywordAtDepthZero(0, ToUpper(sql)[start..]) <==> exists i :: KeywordOutside(sql, start, i)
  {
    var rest := ToUpper(sql)[start..];
    assert |rest| == |sql| - start;
    assert KeywordAtDepthZero(0, rest) <==>
           exists j :: 0 <= j < |rest| && DepthAfter(0, rest[..j]) == 0 && StartsKeyword(rest[j..]);
    assert forall i :: KeywordOutside(sql, start, i) ==> start <= i < |sql|;
    hide *;
    if i :| KeywordOutside(sql, start, i) {
      PositionBySpelling(sql, start, i);
      var j := i - start;
      assert 0 <= j < |rest| && DepthAfter(0, rest[..j]) == 0 && StartsKeyword(rest[j..]);
    }
    if j :| 0 <= j < |rest| && DepthAfter(0, rest[..j]) == 0 && StartsKeyword(rest[j..]) {
      PositionBySpelling(sql, start, j + start);
    }
  }

  lemma QueryBySpelling(sql: string, n: nat)
    requires n <= |sql| && SpelledAt(sql, n, "WITH ")
    ensures var up := ToUpper(sql)[n..];
            "WITH " <= up && QueryStart(sql, n) <= |sql| && AfterWith(up) == ToUpper(sql)[QueryStart(sql, n)..]
  {
    var up := ToUpper(sql)[n..];
    UpperSpells(sql, n, "WITH ");
    UpperSpells(sql, n + 5, "RECURSIVE ");
    assert up[5..] == ToUpper(sql)[n + 5..];
    hide ToUpper;
    if SpelledAt(sql, n + 5, "RECURSIVE ") { assert up[5..][10..] == ToUpper(sql)[n + 15..]; }
    hide SpelledAt;
  }

  /** The verdict on a statement that is visible from position `n` on, in any letter case. */
  lemma VerdictBySpelling(sql: string, n: nat)
    requires VisibleFrom(sql, n)
    ensures var up := ToUpper(TrimStart(sql));
            (StartsKeyword(up) || ("WITH " <= up && KeywordAtDepthZero(0, AfterWith(up)))) <==> WriteFrom(sql, n)
  {
    hide *;
    UpperOfTrimmed(sql, n);
    KeywordBySpelling(sql, n);
    WithBySpelling(sql, n);
    if SpelledAt(sql, n, "WITH ") {
      QueryBySpelling(sql, n);
      ScanBySpelling(sql, QueryStart(sql, n));
    }
    WriteFromMeans(sql, n);
  }

  lemma UpperOfTrimmed(sql: string, n: nat)
    requires VisibleFrom(sql, n)
    ensures n <= |sql| && ToUpper(TrimStart(sql)) == ToUpper(sql)[n..]
  {
    TrimmedExactly(sql, n);
  }

  lemma WithBySpelling(sql: string, n: nat)
    requires n <= |sql|
    ensures "WITH " <= ToUpper(sql)[n..] <==> SpelledAt(sql, n, "WITH ")
  {
    UpperSpells(sql, n, "WITH ");
  }

  lemma WriteFromMeans(sql: string, n: nat)
    ensures WriteFrom(sql, n) <==>
            KeywordAt(sql, n) || (SpelledAt(sql, n, "WITH ") && exists i :: KeywordOutside(sql, QueryStart(sql, n), i))
  {
  }

  /** Texts that differ only in ASCII case get one verdict, whatever white space leads them. */
  lemma CaseIsIgnored(s: string, t: string)
    requires SameButCase(s, t)
    ensures ToUpper(TrimStart(s)) == ToUpper(TrimStart(t))
    decreases |s|
  {
    if s != [] {
      assert SameLetter(s[0], t[0]);
      assert IsWhitespace(s[0]) <==> IsWhitespace(t[0]);
      if IsWhitespace(s[0]) {
        assert forall i :: 0 <= i < |s[1..]| ==> s[1..][i] == s[i + 1] && t[1..][i] == t[i + 1];
        CaseIsIgnored(s[1..], t[1..]);
      } else {
        assert forall i :: 0 <= i < |s| ==> ToUpper(s)[i] == ToUpper(t)[i];
      }
    }
  }

  // ----------------------------------------------------- scanning in two parts

  predicate EndsInParen(s: string) {
    s != [] && (s[|s| - 1] == '(' || s[|s| - 1] == ')')
  }

  lemma KeywordWithinParen(k: string, a: string, b: string)
    requires EndsInParen(a) && '(' !in k && ')' !in k
    ensures k <= a + b <==> k <= a
  {
    if |k| < |a| {
      assert (a + b)[..|k|] == a[..|k|];
    } else {
      assert k[|a| - 1] in k;
      assert (a + b)[|a| - 1] == a[|a| - 1];
    }
  }

  lemma NoKeywordCrossesParen(a: string, b: string)
    requires EndsInParen(a)
    ensures StartsKeyword(a + b) <==> StartsKeyword(a)
  {
    assert forall k: string :: StartsWith(a + b, k) == (k <= a + b) && StartsWith(a, k) == (k <= a);
    KeywordWithinParen("INSERT ", a, b);
    KeywordWithinParen("UPDATE ", a, b);
    KeywordWithinParen("DELETE ", a, b);
    KeywordWithinParen("REPLACE ", a, b);
  }

  lemma {:induction false} ScanInTwoParts(depth: nat, a: string, b: string)
    requires EndsInParen(a)
    ensures Writes(depth, a + b) <==> Writes(depth, a) || Writes(DepthAfter(depth, a), b)
    ensures DepthAfter(depth, a + b) == DepthAfter(DepthAfter(depth, a), b)
    decreases |a|
  {
    NoKeywordCrossesParen(a, b);
    var d := NextDepth(depth, a[0]);
    assert (a + b)[1..] == a[1..] + b && (a + b)[0] == a[0];
    if |a| > 1 {
      ScanInTwoParts(d, a[1..], b);
    } else {
      assert a[1..] == [] && a[1..] + b == b;
      assert DepthAfter(d, a[1..]) == d;
    }
  }

  // ---------------------------------------------------------- rendered queries

  /** One common table expression: everything up to its opening parenthesis, and its body. */
  datatype Cte = Cte(header: string, body: string)

  function RenderCte(c: Cte): string {
    c.header + "(" + c.body + ")"
  }

  function Render(ctes: seq<Cte>, main: string): string {
    if ctes == [] then main else RenderCte(ctes[0]) + Render(ctes[1..], main)
  }

  /** A header brings the scan to its parenthesis at depth 0 without meeting a keyword. */
  predicate PlainHeader(header: string) {
    DepthAfter(0, header + "(") == 1 && !Writes(0, header + "(")
  }

  /** The scan of the body, from its opening to its closing parenthesis, is back at depth 0 with no keyword met there. */
  predicate Shielded(body: string) {
    DepthAfter(1, body + ")") == 0 && !Writes(1, body + ")")
  }

  /** Balanced parentheses: the depth stays at least 1 and ends at 1. */
  predicate Balanced(depth: nat, body: string)
    decreases |body|
  {
    depth >= 1 && (if body == [] then depth == 1 else Balanced(NextDepth(depth, body[0]), body[1..]))
  }

  lemma {:induction false} BalancedIsShielded(depth: nat, body: string)
    requires Balanced(depth, body)
    ensures DepthAfter(depth, body + ")") == 0 && !Writes(depth, body + ")")
    decreases |body|
  {
    if body == [] {
      assert (body + ")")[1..] == "";
    } else {
      assert (body + ")")[1..] == body[1..] + ")";
      BalancedIsShielded(NextDepth(depth, body[0]), body[1..]);
    }
  }

  lemma CteIsSkipped(c: Cte, rest: string)
    requires PlainHeader(c.header)
    ensures Writes(0, RenderCte(c) + rest)
       <==> Writes(1, c.body + ")") || Writes(DepthAfter(1, c.body + ")"), rest)
  {
    var open, close := c.header + "(", c.body + ")";
    assert RenderCte(c) + rest == open + (close + rest);
    ScanInTwoParts(0, open, close + rest);
    ScanInTwoParts(1, close, rest);
  }

  lemma {:induction false} RenderedVerdict(ctes: seq<Cte>, main: string)
    requires forall i :: 0 <= i < |ctes| ==> PlainHeader(ctes[i].header) && Shielded(ctes[i].body)
    ensures Writes(0, Render(ctes, main)) <==> Writes(0, main)
    decreases |ctes|
  {
    if ctes != [] {
      CteIsSkipped(ctes[0], Render(ctes[1..], main));
      RenderedVerdict(ctes[1..], main);
    }
  }

  /**
   For every `WITH [RECURSIVE]` query with balanced bodies and headers free of
   depth-0 keywords the verdict is that of the main statement, whatever the bodies
   contain: nested inserts, deletes or further queries.
   */
  lemma VerdictIsThatOfMain(recursive: bool, ctes: seq<Cte>, main: string)
    requires forall i :: 0 <= i < |ctes| ==> PlainHeader(ctes[i].header) && Balanced(1, ctes[i].body)
    requires !recursive ==> !("RECURSIVE " <= Render(ctes, main))
    ensures var sql := "WITH " + (if recursive then "RECURSIVE " else "") + Render(ctes, main);
            "WITH " <= sql && (KeywordAtDepthZero(0, AfterWith(sql)) <==> KeywordAtDepthZero(0, main))
  {
    forall i | 0 <= i < |ctes| ensures Shielded(ctes[i].body) {
      BalancedIsShielded(1, ctes[i].body);
    }
    RenderedVerdict(ctes, main);
    var query := Render(ctes, main);
    var sql := "WITH " + (if recursive then "RECURSIVE " else "") + query;
    assert sql[5..] == (if recursive then "RECURSIVE " else "") + query;
    assert AfterWith(sql) == query by {
      if recursive { assert sql[5..][10..] == query; } else { assert sql[5..] == query; }
    }
    WritesIsPositional(0, query);
    WritesIsPositional(0, main);
  }

  lemma {:induction false} NothingWrittenWhileDeep(depth: nat, s: string)
    requires depth > 0 && ')' !in s
    ensures !Writes(depth, s)
    decreases |s|
  {
    if s != [] {
      NothingWrittenWhileDeep(NextDepth(depth, s[0]), s[1..]);
    }
  }

  lemma ADeleteIsAWrite()
    ensures Writes(0, "DELETE ")
  {
  }

  /** All of a WITH query up to its main statement. */
  function Prefix(ctes: seq<Cte>): string {
    Render(ctes, "")
  }

  lemma {:induction false} RenderedIsPrefixAndMain(ctes: seq<Cte>, main: string)
    ensures Render(ctes, main) == Prefix(ctes) + main
    ensures ctes != [] ==> EndsInParen(Prefix(ctes))
    decreases |ctes|
  {
    if ctes != [] {
      RenderedIsPrefixAndMain(ctes[1..], main);
      assert RenderCte(ctes[0]) + (Prefix(ctes[1..]) + main) == (RenderCte(ctes[0]) + Prefix(ctes[1..])) + main;
      if |ctes| == 1 {
        assert Prefix(ctes[1..]) == "" && Prefix(ctes) == RenderCte(ctes[0]);
      }
    }
  }

  /** A prefix that ends in a parenthesis leaves every verdict alone exactly when its scan ends at depth 0 with no keyword met. */
  lemma NeutralPrefix(prefix: string)
    requires EndsInParen(prefix)
    ensures (forall main :: Writes(0, prefix + main) <==> Writes(0, main))
       <==> DepthAfter(0, prefix) == 0 && !Writes(0, prefix)
  {
    var d := DepthAfter(0, prefix);
    forall main ensures Writes(0, prefix + main) <==> Writes(0, prefix) || Writes(d, main) {
      ScanInTwoParts(0, prefix, main);
    }
    NothingToScan(0);
    ADeleteIsAWrite();
    hide *;
    if Writes(0, prefix) {
      assert Writes(0, prefix + "") && !Writes(0, "");
    } else if d > 0 {
      NothingWrittenWhileDeep(d, "DELETE ");
      assert !Writes(0, prefix + "DELETE ") && Writes(0, "DELETE ");
    }
  }

  /**
   The exact condition, for any number of table expressions and any headers and bodies:
   the verdict on the whole query is the verdict on its main statement, for every main
   statement, if and only if the byte scan of what comes before is back at depth 0 with no
   keyword met.  A parenthesis inside a string literal can break this in both directions.
   */
  lemma VerdictIsThatOfMainExactly(ctes: seq<Cte>)
    requires ctes != []
    ensures (forall main :: Writes(0, Render(ctes, main)) <==> Writes(0, main))
       <==> DepthAfter(0, Prefix(ctes)) == 0 && !Writes(0, Prefix(ctes))
  {
    var prefix := Prefix(ctes);
    RenderedIsPrefixAndMain(ctes, "");
    NeutralPrefix(prefix);
    hide *;
    if DepthAfter(0, prefix) == 0 && !Writes(0, prefix) {
      forall main ensures Writes(0, Render(ctes, main)) <==> Writes(0, main) {
        RenderedIsPrefixAndMain(ctes, main);
        assert Writes(0, prefix + main) <==> Writes(0, main);
      }
    } else {
      var main :| !(Writes(0, prefix + main) <==> Writes(0, main));
      RenderedIsPrefixAndMain(ctes, main);
    }
  }

  /** Of a single table expression with a plain header: if and only if its body shields it. */
  lemma VerdictIsThatOfMainExactlyWhenShielded(c: Cte)
    requires PlainHeader(c.header)
    ensures (forall main :: Writes(0, Render([c], main)) <==> Writes(0, main)) <==> Shielded(c.body)
  {
    var open, close := c.header + "(", c.body + ")";
    OnePrefix(c);
    assert RenderCte(c) == open + close;
    ScanInTwoParts(0, open, close);
    VerdictIsThatOfMainExactly([c]);
    assert DepthAfter(0, open) == 1 && !Writes(0, open);
    assert Shielded(c.body) == (DepthAfter(1, close) == 0 && !Writes(1, close));
    hide *;
  }

  lemma OnePrefix(c: Cte)
    ensures Prefix([c]) == RenderCte(c)
  {
    assert [c][1..] == [];
    assert Render([c], "") == RenderCte(c) + Render([], "");
    assert RenderCte(c) + "" == RenderCte(c);
  }

  lemma {:induction false} DepthComposes(depth: nat, a: string, b: string)
    ensures DepthAfter(depth, a + b) == DepthAfter(DepthAfter(depth, a), b)
    decreases |a|
  {
    if a == [] {
      assert a + b == b;
    } else {
      assert (a + b)[0] == a[0] && (a + b)[1..] == a[1..] + b;
      DepthComposes(NextDepth(depth, a[0]), a[1..], b);
    }
  }

  lemma {:induction false} DepthWithoutParens(depth: nat, s: string)
    requires '(' !in s && ')' !in s
    ensures DepthAfter(depth, s) == depth
    decreases |s|
  {
    if s != [] {
      DepthWithoutParens(depth, s[1..]);
    }
  }

  lemma {:induction false} NothingWrittenWithoutInitials(depth: nat, s: string)
    requires 'I' !in s && 'U' !in s && 'D' !in s && 'R' !in s
    ensures !Writes(depth, s)
    decreases |s|
  {
    if s != [] {
      ScanStep(depth, s);
      KeywordByInitial(s);
      NothingWrittenWithoutInitials(NextDepth(depth, s[0]), s[1..]);
    }
  }

  /** `A AS (SELECT '(') DELETE ...`: the quoted parenthesis hides the DELETE, which goes to a read replica. */
  lemma QuotedParenthesisHidesWrite(main: string)
    requires ')' !in main
    ensures !Writes(0, RenderCte(Cte("A AS ", "SELECT '('")) + ("DELETE " + main))
    ensures Writes(0, "DELETE " + main)
  {
    HeaderOfWitness("A AS ");
    BodyOfWitness();
    CteIsSkipped(Cte("A AS ", "SELECT '('"), "DELETE " + main);
    NothingWrittenWhileDeep(1, "DELETE " + main);
    assert Writes(0, "DELETE " + main) by { assert "DELETE " <= "DELETE " + main; }
    hide *;
  }

  lemma HeaderOfWitness(header: string)
    requires header == "A AS "
    ensures PlainHeader(header)
  {
    NothingWrittenWithoutInitials(0, header + "(");
    DepthWithoutParens(0, header);
    DepthComposes(0, header, "(");
    DepthAfterOne(0, '(');
  }

  lemma BodyOfWitness()
    ensures DepthAfter(1, "SELECT '('" + ")") == 1 && !Writes(1, "SELECT '('" + ")")
  {
    NothingWrittenWithoutInitials(1, "SELECT '('" + ")");
    DepthOfWitness("SELECT '", "'");
    assert "SELECT '" + ("(" + ("'" + ")")) == "SELECT '('" + ")";
    hide *;
  }

  /** An unmatched opening parenthesis costs the body its closing one. */
  lemma DepthOfWitness(before: string, after: string)
    requires '(' !in before && ')' !in before && '(' !in after && ')' !in after
    ensures DepthAfter(1, before + ("(" + (after + ")"))) == 1
  {
    DepthWithoutParens(1, before);
    DepthComposes(1, before, "(" + (after + ")"));
    DepthAfterOne(1, '(');
    DepthComposes(1, "(", after + ")");
    DepthWithoutParens(2, after);
    DepthComposes(2, after, ")");
    DepthAfterOne(2, ')');
    hide DepthAfter;
  }

  lemma DepthAfterOne(depth: nat, c: char)
    ensures DepthAfter(depth, [c]) == NextDepth(depth, c)
  {
    assert [c][1..] == [];
  }
}
