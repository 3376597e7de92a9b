/** LIKE / ILIKE matching (src/exec/expr/like.rs): the pattern tokenizer and the greedy
    two-pointer matcher, proved against the declarative wildcard relation. */
module Like {
  import opened Options

  datatype Token = Any | One | Lit(c: char)

  datatype Compiled = Tokens(tokens: seq<Token>) | EndsWithEscape

  /** The declarative meaning of a token list: `%` stands for any run of characters, `_` for
      exactly one, a literal for one character that `eq` accepts. */
  ghost predicate Matches(s: seq<char>, p: seq<Token>, eq: (char, char) -> bool)
    decreases |p|
  {
    if p == [] then s == []
    else if p[0].Any? then exists k | 0 <= k <= |s| :: Matches(s[k..], p[1..], eq)
    else s != [] && Accepts(p[0], s[0], eq) && Matches(s[1..], p[1..], eq)
  }

  /** One non-`%` token against one character. */
  predicate Accepts(t: Token, c: char, eq: (char, char) -> bool)
  {
    t.One? || (t.Lit? && eq(t.c, c))
  }

  // ── The tokenizer ──────────────────────────────────────────────────────────

  /** What a pattern means, read from the left: `\` quotes the next character. */
  function Meaning(pattern: seq<char>): Compiled
  {
    if pattern == [] then Tokens([])
    else if pattern[0] == '\\' then
      if |pattern| == 1 then EndsWithEscape
      else Prepend(Lit(pattern[1]), Meaning(pattern[2..]))
    else Prepend(Plain(pattern[0]), Meaning(pattern[1..]))
  }

  function Plain(c: char): Token
  {
    if c == '%' then Any else if c == '_' then One else Lit(c)
  }

  function Prepend(t: Token, rest: Compiled): Compiled
  {
    if rest.Tokens? then Tokens([t] + rest.tokens) else EndsWithEscape
  }

  /** The concatenation of tokens read so far with what the rest of the pattern means. */
  function After(read: seq<Token>, rest: Compiled): Compiled
  {
    if rest.Tokens? then Tokens(read + rest.tokens) else EndsWithEscape
  }

  method Compile(pattern: seq<char>) returns (r: Compiled)
    ensures r == Meaning(pattern)
  {
    var tokens: seq<Token> := [];
    var i := 0;
    while i < |pattern|
      invariant 0 <= i <= |pattern|
      invariant Meaning(pattern) == After(tokens, Meaning(pattern[i..]))
    {
      var c := pattern[i];
      assert pattern[i..][0] == c;
      if c == '\\' {
        if i + 1 == |pattern| {
          return EndsWithEscape;
        }
        assert pattern[i..][2..] == pattern[i + 2..];
        tokens := tokens + [Lit(pattern[i + 1])];
        i := i + 2;
      } else {
        assert pattern[i..][1..] == pattern[i + 1..];
        tokens := tokens + [Plain(c)];
        i := i + 1;
      }
    }
    return Tokens(tokens);
  }

  // ── What a pattern matches, character by character ─────────────────────────

  /** `%` stands for any run of characters, `_` for exactly one, `\` makes the next character stand for
      itself, and any other character stands for itself. */
  ghost predicate Like(s: seq<char>, pattern: seq<char>, eq: (char, char) -> bool)
    decreases |pattern|
  {
    if pattern == [] then s == []
    else if pattern[0] == '%' then exists k | 0 <= k <= |s| :: Like(s[k..], pattern[1..], eq)
    else if pattern[0] == '_' then s != [] && Like(s[1..], pattern[1..], eq)
    else if pattern[0] == '\\' then
      |pattern| >= 2 && s != [] && eq(pattern[1], s[0]) && Like(s[1..], pattern[2..], eq)
    else s != [] && eq(pattern[0], s[0]) && Like(s[1..], pattern[1..], eq)
  }

  /** The backslashes at the end of a pattern. */
  function Trailing(pattern: seq<char>): nat
  {
    if pattern == [] || pattern[|pattern| - 1] != '\\' then 0 else 1 + Trailing(pattern[..|pattern| - 1])
  }

  /** Taking characters off the front takes none of the trailing backslashes, unless all are. */
  lemma {:induction false} TrailingTail(pattern: seq<char>, n: nat)
    requires n <= |pattern|
    ensures Trailing(pattern) == if Trailing(pattern[n..]) == |pattern| - n then |pattern| - n + Trailing(pattern[..n])
                                 else Trailing(pattern[n..])
    decreases |pattern|
  {
    if n == |pattern| {
      assert pattern[..n] == pattern && pattern[n..] == [];
    } else {
      var init, tail := pattern[..|pattern| - 1], pattern[n..];
      TrailingTail(init, n);
      assert tail[..|tail| - 1] == init[n..] && init[..n] == pattern[..n];
      assert tail[|tail| - 1] == pattern[|pattern| - 1];
      TrailingFits(init[n..]);
    }
  }

  lemma {:induction false} TrailingFits(pattern: seq<char>)
    ensures Trailing(pattern) <= |pattern|
  {
    if pattern != [] { TrailingFits(pattern[..|pattern| - 1]); }
  }

  /** A pattern is refused exactly when its last backslash quotes nothing: an odd number of them end it. */
  lemma {:induction false} RefusedIffOdd(pattern: seq<char>)
    ensures Meaning(pattern) == EndsWithEscape <==> Trailing(pattern) % 2 == 1
    decreases |pattern|
  {
    if pattern != [] {
      var n := if pattern[0] == '\\' && |pattern| > 1 then 2 else 1;
      RefusedIffOdd(pattern[n..]);
      TrailingTail(pattern, n);
      assert pattern[..1] == [pattern[0]] && [pattern[0]][..0] == [];
      if n == 2 {
        assert pattern[..2] == [pattern[0], pattern[1]] && [pattern[0], pattern[1]][..1] == [pattern[0]];
        assert Trailing([pattern[0]]) == 1 + Trailing([]);
      } else if |pattern| == 1 {
        assert Trailing([pattern[0]]) == (if pattern[0] == '\\' then 1 + Trailing([]) else 0);
      }
    }
  }

  /** The tokens match what the pattern matches. */
  lemma {:induction false} TokensMatch(s: seq<char>, pattern: seq<char>, eq: (char, char) -> bool)
    requires Meaning(pattern).Tokens?
    ensures Matches(s, Meaning(pattern).tokens, eq) <==> Like(s, pattern, eq)
    decreases |pattern|
  {
    if pattern != [] {
      var n := if pattern[0] == '\\' then 2 else 1;
      var rest := Meaning(pattern[n..]).tokens;
      var tokens := Meaning(pattern).tokens;
      assert tokens[1..] == rest;
      if pattern[0] == '%' {
        forall k | 0 <= k <= |s| ensures Matches(s[k..], rest, eq) <==> Like(s[k..], pattern[1..], eq) {
          TokensMatch(s[k..], pattern[1..], eq);
        }
      } else if s != [] {
        TokensMatch(s[1..], pattern[n..], eq);
      }
    }
  }

  /** Quotes every character, the way a caller asks for a literal match. */
  function Quote(text: seq<char>): (pattern: seq<char>)
    ensures |pattern| == 2 * |text|
  {
    if text == [] then [] else ['\\', text[0]] + Quote(text[1..])
  }

  function Literals(text: seq<char>): (tokens: seq<Token>)
    ensures |tokens| == |text|
    ensures forall i :: 0 <= i < |text| ==> tokens[i] == Lit(text[i])
  {
    if text == [] then [] else [Lit(text[0])] + Literals(text[1..])
  }

  /** A fully quoted pattern compiles, and matches exactly the text that was quoted. */
  lemma {:induction false} QuotedMatchesItself(text: seq<char>, s: seq<char>)
    ensures Meaning(Quote(text)) == Tokens(Literals(text))
    ensures Matches(s, Literals(text), (a, b) => a == b) <==> s == text
  {
    if text == [] {
    } else {
      assert Quote(text)[2..] == Quote(text[1..]);
      assert Literals(text)[1..] == Literals(text[1..]);
      QuotedMatchesItself(text[1..], if s == [] then [] else s[1..]);
      if s != [] && s[0] == text[0] && s[1..] == text[1..] {
        assert s == [s[0]] + s[1..] == text;
      }
    }
  }

  // ── The matcher ────────────────────────────────────────────────────────────

  /** `s` matches `%` followed by `p`: some suffix of `s` matches `p`. */
  ghost predicate SomeSuffix(s: seq<char>, from: nat, p: seq<Token>, eq: (char, char) -> bool)
    requires from <= |s|
  {
    exists k | from <= k <= |s| :: Matches(s[k..], p, eq)
  }

  /** The tokens between the last `%` and the pattern cursor, aligned with `s` at `from`. */
  predicate Aligned(s: seq<char>, from: nat, p: seq<Token>, eq: (char, char) -> bool)
  {
    from + |p| <= |s| &&
    forall i :: 0 <= i < |p| ==> !p[i].Any? && Accepts(p[i], s[from + i], eq)
  }

  ghost predicate AllAny(p: seq<Token>)
  {
    forall i :: 0 <= i < |p| ==> p[i].Any?
  }

  lemma {:induction false} EmptyTextMatches(p: seq<Token>, eq: (char, char) -> bool)
    ensures Matches([], p, eq) <==> AllAny(p)
  {
    if p == [] {
    } else {
      EmptyTextMatches(p[1..], eq);
      if p[0].Any? {
        var s: seq<char> := [];
        assert s[0..] == s;
        if Matches(s, p[1..], eq) {
          assert Matches(s[0..], p[1..], eq);
        }
        assert AllAny(p[1..]) ==> AllAny(p) by {
          if AllAny(p[1..]) {
            forall i | 0 <= i < |p| ensures p[i].Any? {
              if i > 0 { assert p[i] == p[1..][i - 1]; }
            }
          }
        }
      }
    }
  }

  /** `%` absorbs a prefix: `SomeSuffix` is exactly what a leading `%` means. */
  lemma {:induction false} AnyIsSomeSuffix(s: seq<char>, from: nat, p: seq<Token>, eq: (char, char) -> bool)
    requires from <= |s| && p != [] && p[0].Any?
    ensures Matches(s[from..], p, eq) <==> SomeSuffix(s, from, p[1..], eq)
  {
    var t := s[from..];
    forall k | 0 <= k <= |t|
      ensures t[k..] == s[from + k..]
    {
    }
    if SomeSuffix(s, from, p[1..], eq) {
      var k :| from <= k <= |s| && Matches(s[k..], p[1..], eq);
      assert t[k - from..] == s[k..];
    }
    if Matches(t, p, eq) {
      var k :| 0 <= k <= |t| && Matches(t[k..], p[1..], eq);
      assert t[k..] == s[from + k..];
    }
  }

  /** Consuming an aligned run: the text matches the run and the rest iff the remainder matches
      the rest. */
  lemma {:induction false} ConsumeRun(
    s: seq<char>, from: nat, run: seq<Token>, rest: seq<Token>, eq: (char, char) -> bool)
    requires Aligned(s, from, run, eq)
    ensures Matches(s[from..], run + rest, eq) <==> Matches(s[from + |run|..], rest, eq)
    decreases |run|
  {
    if run == [] {
      assert run + rest == rest;
    } else {
      assert (run + rest)[1..] == run[1..] + rest;
      assert s[from..][1..] == s[from + 1..];
      assert forall i :: 0 <= i < |run[1..]| ==> run[1..][i] == run[i + 1];
      ConsumeRun(s, from + 1, run[1..], rest, eq);
      assert s[from..][0] == s[from] && Accepts(run[0], s[from], eq);
    }
  }

  /** Whatever matches a run of single-character tokens is at least as long as the run, and what
      is left over matches the rest. */
  lemma {:induction false} RunIsFixedWidth(
    s: seq<char>, at: nat, run: seq<Token>, rest: seq<Token>, eq: (char, char) -> bool)
    requires at <= |s|
    requires forall i :: 0 <= i < |run| ==> !run[i].Any?
    requires Matches(s[at..], run + rest, eq)
    ensures at + |run| <= |s|
    ensures Matches(s[at + |run|..], rest, eq)
    decreases |run|
  {
    if run == [] {
      assert run + rest == rest;
    } else {
      assert (run + rest)[1..] == run[1..] + rest;
      assert s[at..][1..] == s[at + 1..];
      RunIsFixedWidth(s, at + 1, run[1..], rest, eq);
    }
  }

  /** The exchange argument: once the run after one `%` has been matched at its leftmost place,
      a second `%` makes the first one's position irrelevant. */
  lemma {:induction false} ForgetEarlierStar(
    s: seq<char>, from: nat, run: seq<Token>, rest: seq<Token>, eq: (char, char) -> bool)
    requires Aligned(s, from, run, eq)
    requires rest != [] && rest[0].Any?
    ensures SomeSuffix(s, from, run + rest, eq) <==> SomeSuffix(s, from + |run|, rest[1..], eq)
  {
    if SomeSuffix(s, from, run + rest, eq) {
      LaterStarSuffices(s, from, run, rest, eq);
    }
    if SomeSuffix(s, from + |run|, rest[1..], eq) {
      AnyIsSomeSuffix(s, from + |run|, rest, eq);
      ConsumeRun(s, from, run, rest, eq);
      assert Matches(s[from..], run + rest, eq);
    }
  }

  lemma {:induction false} LaterStarSuffices(
    s: seq<char>, from: nat, run: seq<Token>, rest: seq<Token>, eq: (char, char) -> bool)
    requires Aligned(s, from, run, eq)
    requires rest != [] && rest[0].Any?
    requires SomeSuffix(s, from, run + rest, eq)
    ensures SomeSuffix(s, from + |run|, rest[1..], eq)
  {
    var k :| from <= k <= |s| && Matches(s[k..], run + rest, eq);
    RunIsFixedWidth(s, k, run, rest, eq);
    AnyIsSomeSuffix(s, k + |run|, rest, eq);
    var j :| k + |run| <= j <= |s| && Matches(s[j..], rest[1..], eq);
    assert from + |run| <= j;
  }

  /** A dead end: the character at the cursor fits no token, so the run cannot start at `from`. */
  lemma {:induction false} DeadEnd(s: seq<char>, from: nat, run: seq<Token>, rest: seq<Token>, eq: (char, char) -> bool)
    requires Aligned(s, from, run, eq)
    requires from + |run| < |s|
    requires rest == [] || (!rest[0].Any? && !Accepts(rest[0], s[from + |run|], eq))
    ensures SomeSuffix(s, from, run + rest, eq) <==> SomeSuffix(s, from + 1, run + rest, eq)
  {
    ConsumeRun(s, from, run, rest, eq);
    assert !Matches(s[from..], run + rest, eq);
  }

  /** Text exhausted with a `%` behind: only the current alignment can still succeed. */
  lemma {:induction false} OnlyAlignmentLeft(s: seq<char>, from: nat, run: seq<Token>, rest: seq<Token>, eq: (char, char) -> bool)
    requires Aligned(s, from, run, eq)
    requires from + |run| == |s|
    ensures SomeSuffix(s, from, run + rest, eq) <==> AllAny(rest)
  {
    EmptyTextMatches(rest, eq);
    assert s[|s|..] == [];
    ConsumeRun(s, from, run, rest, eq);
    if SomeSuffix(s, from, run + rest, eq) {
      var k :| from <= k <= |s| && Matches(s[k..], run + rest, eq);
      RunIsNoLonger(s, k, run, rest, eq);
      assert k == from;
    }
    if AllAny(rest) {
      assert Matches(s[from..], run + rest, eq);
    }
  }

  lemma {:induction false} RunIsNoLonger(s: seq<char>, at: nat, run: seq<Token>, rest: seq<Token>, eq: (char, char) -> bool)
    requires at <= |s|
    requires forall i :: 0 <= i < |run| ==> !run[i].Any?
    requires Matches(s[at..], run + rest, eq)
    ensures at + |run| <= |s|
  {
    RunIsFixedWidth(s, at, run, rest, eq);
  }

  /** What the two cursors know about the answer `goal`: with no `%` seen, it is about the two
      suffixes; with the last `%` at `star`, the run since it sits at `from`, and the answer is
      whether some suffix from `from` on matches what follows `star`. */
  ghost predicate Progress(
    s: seq<char>, p: seq<Token>, eq: (char, char) -> bool, goal: bool, si: int, pi: int, star: int, from: int)
  {
    && 0 <= from <= si <= |s| && -1 <= star < pi <= |p|
    && (star == -1 ==> (goal <==> Matches(s[si..], p[pi..], eq)))
    && (star >= 0 ==> Anchored(s, p, eq, goal, si, pi, star, from))
  }

  ghost predicate Anchored(
    s: seq<char>, p: seq<Token>, eq: (char, char) -> bool, goal: bool, si: int, pi: int, star: int, from: int)
    requires 0 <= from <= si <= |s| && 0 <= star < pi <= |p|
  {
    && si == from + (pi - star - 1)
    && Aligned(s, from, p[star + 1..pi], eq)
    && (goal <==> SomeSuffix(s, from, p[star + 1..], eq))
  }

  lemma {:induction false} StepLiteral(
    s: seq<char>, p: seq<Token>, eq: (char, char) -> bool, goal: bool, si: int, pi: int, star: int, from: int)
    requires Progress(s, p, eq, goal, si, pi, star, from)
    requires si < |s| && pi < |p| && Accepts(p[pi], s[si], eq)
    ensures Progress(s, p, eq, goal, si + 1, pi + 1, star, from)
  {
    if star >= 0 {
      LongerRun(s, p, eq, si, pi, star, from);
    } else {
      assert s[si..][1..] == s[si + 1..] && p[pi..][1..] == p[pi + 1..];
    }
  }

  /** One more accepted character keeps the run aligned. */
  lemma {:induction false} LongerRun(
    s: seq<char>, p: seq<Token>, eq: (char, char) -> bool, si: int, pi: int, star: int, from: int)
    requires 0 <= from && 0 <= star < pi < |p| && si == from + (pi - star - 1) < |s|
    requires Aligned(s, from, p[star + 1..pi], eq) && Accepts(p[pi], s[si], eq)
    ensures Aligned(s, from, p[star + 1..pi + 1], eq)
  {
    assert p[star + 1..pi + 1] == p[star + 1..pi] + [p[pi]];
  }

  lemma {:induction false} StepAny(
    s: seq<char>, p: seq<Token>, eq: (char, char) -> bool, goal: bool, si: int, pi: int, star: int, from: int)
    requires Progress(s, p, eq, goal, si, pi, star, from)
    requires pi < |p| && p[pi].Any?
    ensures Progress(s, p, eq, goal, si, pi + 1, pi, si)
  {
    var run, rest := if star >= 0 then p[star + 1..pi] else [], p[pi..];
    assert rest[1..] == p[pi + 1..];
    assert goal <==> SomeSuffix(s, si, rest[1..], eq) by {
      if star >= 0 {
        assert p[star + 1..] == run + rest;
        ForgetEarlierStar(s, from, run, rest, eq);
      } else {
        AnyIsSomeSuffix(s, si, rest, eq);
      }
    }
    assert Anchored(s, p, eq, goal, si, pi + 1, pi, si);
  }

  lemma {:induction false} StepBack(
    s: seq<char>, p: seq<Token>, eq: (char, char) -> bool, goal: bool, si: int, pi: int, star: int, from: int)
    requires Progress(s, p, eq, goal, si, pi, star, from)
    requires si < |s| && star >= 0
    requires pi == |p| || (!p[pi].Any? && !Accepts(p[pi], s[si], eq))
    ensures Progress(s, p, eq, goal, from + 1, star + 1, star, from + 1)
  {
    assert p[star + 1..] == p[star + 1..pi] + p[pi..];
    DeadEnd(s, from, p[star + 1..pi], p[pi..], eq);
    assert Anchored(s, p, eq, goal, from + 1, star + 1, star, from + 1);
  }

  lemma {:induction false} TextExhausted(
    s: seq<char>, p: seq<Token>, eq: (char, char) -> bool, goal: bool, pi: int, star: int, from: int)
    requires 0 <= star && Progress(s, p, eq, goal, |s|, pi, star, from)
    ensures goal <==> AllAny(p[pi..])
  {
    assert Anchored(s, p, eq, goal, |s|, pi, star, from);
    var run, rest := p[star + 1..pi], p[pi..];
    assert p[star + 1..] == run + rest;
    OnlyAlignmentLeft(s, from, run, rest, eq);
  }

  lemma {:induction false} TextExhaustedNoStar(
    s: seq<char>, p: seq<Token>, eq: (char, char) -> bool, goal: bool, pi: int, from: int)
    requires Progress(s, p, eq, goal, |s|, pi, -1, from)
    ensures goal <==> AllAny(p[pi..])
  {
    EmptyTextMatches(p[pi..], eq);
    assert s[|s|..] == [];
  }

  /** Nothing fits at the cursor and no `%` lies behind: the text does not match. */
  lemma {:induction false} NoStar(
    s: seq<char>, p: seq<Token>, eq: (char, char) -> bool, goal: bool, si: int, pi: int, from: int)
    requires Progress(s, p, eq, goal, si, pi, -1, from)
    requires si < |s|
    requires pi == |p| || (!p[pi].Any? && !Accepts(p[pi], s[si], eq))
    ensures !goal
  {
  }

  /** The greedy matcher decides the declarative relation, for every text, token list and
      character equality. `star` is the position of the last `%` seen, or -1. */
  method LikeMatch(s: seq<char>, p: seq<Token>, eq: (char, char) -> bool) returns (matched: bool)
    ensures matched <==> Matches(s, p, eq)
  {
    var si, pi := 0, 0;
    var star := -1;
    var matchFrom := 0;
    assert s[0..] == s && p[0..] == p;
    ghost var goal := Matches(s, p, eq);
    while si < |s|
      invariant Progress(s, p, eq, goal, si, pi, star, matchFrom)
      decreases |p| - star, |s| - matchFrom, |s| - si
    {
      var literal := pi < |p| && Accepts(p[pi], s[si], eq);
      if literal {
        StepLiteral(s, p, eq, goal, si, pi, star, matchFrom);
        si := si + 1;
        pi := pi + 1;
      } else if pi < |p| && p[pi].Any? {
        StepAny(s, p, eq, goal, si, pi, star, matchFrom);
        star := pi;
        matchFrom := si;
        pi := pi + 1;
      } else if star >= 0 {
        StepBack(s, p, eq, goal, si, pi, star, matchFrom);
        pi := star + 1;
        matchFrom := matchFrom + 1;
        si := matchFrom;
      } else {
        NoStar(s, p, eq, goal, si, pi, matchFrom);
        return false;
      }
    }
    if star >= 0 {
      TextExhausted(s, p, eq, goal, pi, star, matchFrom);
    } else {
      TextExhaustedNoStar(s, p, eq, goal, pi, matchFrom);
    }
    ghost var tail, start := p[pi..], pi;
    while pi < |p| && p[pi].Any?
      invariant start <= pi <= |p|
      invariant forall i :: start <= i < pi ==> p[i].Any?
    {
      pi := pi + 1;
    }
    assert pi < |p| ==> tail[pi - start] == p[pi];
    return pi == |p|;
  }

  /** LIKE as it runs: compile, then match. `None` is the error for a trailing escape. */
  method LikePattern(s: seq<char>, pattern: seq<char>, eq: (char, char) -> bool) returns (matched: Option<bool>)
    ensures matched.None? <==> Trailing(pattern) % 2 == 1
    ensures matched.Some? ==> (matched.value <==> Like(s, pattern, eq))
  {
    RefusedIffOdd(pattern);
    var compiled := Compile(pattern);
    if compiled.EndsWithEscape? { return None; }
    TokensMatch(s, pattern, eq);
    var m := LikeMatch(s, compiled.tokens, eq);
    matched := Some(m);
  }
}
