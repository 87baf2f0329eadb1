/** Namespace expressions (`Foo` and `Foo*`) and how a recursive namespace
    expression measures its match against another expression. */
module Expressions {
  import opened Wrappers
  import opened Regex

  /** Expressions. The namespace kinds are modelled in full; the other kinds
      (method expressions and so on) appear only through their syntax, which
      is all `match_length` looks at. */
  datatype Expression =
    | Recursive(scopeName: string)  // Namespace::Recursive, syntax `Foo*`
    | Exact(scopeName: string)      // Namespace::Exact, syntax `Foo`
    | OtherKind(text: string)       // any other kind, by its syntax

  /** Scope names are constant paths: identifier characters and `::`. None of
      them is a regexp metacharacter, so interpolating a scope name into a
      regexp yields a pattern that matches the name literally. The recursive
      expression standing for "everything" has no scope name (nil), which
      interpolates as the empty string. */
  predicate ScopeNameChar(c: char)
  {
    ('A' <= c <= 'Z') || ('a' <= c <= 'z') || ('0' <= c <= '9') || c == '_' || c == ':'
  }

  predicate ValidScopeName(s: string)
  {
    forall i :: 0 <= i < |s| ==> ScopeNameChar(s[i])
  }

  /** `#syntax`: `"#{scope_name}*"` for a recursive expression, the scope
      name itself for an exact one. */
  function Syntax(e: Expression): (r: string)
    ensures e.Recursive? ==> |r| == |e.scopeName| + 1 && r[..|e.scopeName|] == e.scopeName && r[|e.scopeName|] == '*'
    ensures e.Exact? ==> r == e.scopeName
  {
    match e
    case Recursive(name) => name + "*"
    case Exact(name) => name
    case OtherKind(text) => text
  }

  /** The method separators that may follow a scope name: `.` and `#`. */
  const MethodSeparators: set<char> := {'.', '#'}

  /** `@recursion_pattern`, computed when a recursive expression is built:
      the union of `\A<name>\z`, `\A<name>::` and `\A<name>[.#]`. */
  function RecursionPattern(scopeName: string): (ps: seq<Pattern>)
    requires ValidScopeName(scopeName)
    ensures |ps| == 3
  {
    [ [Start] + Lits(scopeName) + [End],
      [Start] + Lits(scopeName + "::"),
      [Start] + Lits(scopeName) + [OneOf(MethodSeparators)] ]
  }

  /** The three alternatives of the recursion pattern as plain string tests. */
  predicate WholeName(t: string, s: string) { t == s }
  predicate NestedName(t: string, s: string) { StartsWith(t, s + "::") }
  predicate MethodOf(t: string, s: string) { StartsWith(t, s) && |t| > |s| && t[|s|] in MethodSeparators }

  /** The regexp the source builds accepts exactly the names that are the
      scope name itself, lie under it after `::`, or name a method of it. */
  lemma RecursionPatternMeaning(s: string, t: string)
    requires ValidScopeName(s)
    ensures Search(RecursionPattern(s), t) <==> WholeName(t, s) || NestedName(t, s) || MethodOf(t, s)
  {
    var ps := RecursionPattern(s);
    AnchoredSearch(ps, t);
    assert ps[0][1..] == Lits(s) + [End];
    assert ps[1][1..] == Lits(s + "::") + [];
    assert ps[2][1..] == Lits(s) + [OneOf(MethodSeparators)];
    MatchLits(s, [End], t, 0);
    MatchLits(s + "::", [], t, 0);
    MatchLits(s, [OneOf(MethodSeparators)], t, 0);
    if |s| <= |t| {
      assert t[0..|s|] == t[..|s|];
    }
    if |s + "::"| <= |t| {
      assert t[0..|s + "::"|] == t[..|s + "::"|];
    }
    if StartsWith(t, s) && |t| == |s| {
      assert t == t[..|s|];
    }
  }

  /** `Recursive#match_length`: the scope name's length when the other
      expression's syntax matches the recursion pattern, otherwise 0. */
  function MatchLength(e: Expression, other: Expression): (r: nat)
    requires e.Recursive? && ValidScopeName(e.scopeName)
    ensures r == 0 || r == |e.scopeName|
    ensures r == 0 || r == |Syntax(e)| - 1
  {
    if Search(RecursionPattern(e.scopeName), Syntax(other)) then |e.scopeName| else 0
  }

  /** For a non-empty scope name, the match length is non-zero exactly when
      the other syntax is the name itself, the name followed by `::`, or the
      name followed by `.` or `#`. */
  lemma {:induction false} MatchLengthNonZeroIff(s: string, other: Expression)
    requires ValidScopeName(s) && s != ""
    ensures MatchLength(Recursive(s), other) != 0 <==>
            var t := Syntax(other); WholeName(t, s) || NestedName(t, s) || MethodOf(t, s)
  {
    RecursionPatternMeaning(s, Syntax(other));
  }

  /** A recursive expression does not match its own syntax `Foo*`: the `*` is
      none of the three boundaries. */
  lemma {:induction false} NoMatchOfOwnSyntax(s: string)
    requires ValidScopeName(s)
    ensures MatchLength(Recursive(s), Recursive(s)) == 0
  {
    var t := Syntax(Recursive(s));
    RecursionPatternMeaning(s, t);
    assert t[|s|] == '*';
  }

  /** `Foo*` fully matches the exact expression `Foo`. */
  lemma {:induction false} MatchesExactOfSameName(s: string)
    requires ValidScopeName(s)
    ensures MatchLength(Recursive(s), Exact(s)) == |s|
  {
    RecursionPatternMeaning(s, s);
  }

  /** A match through `::` or a method separator survives any extension of
      the other syntax. */
  lemma {:induction false} MatchStableUnderExtension(s: string, t: string, suffix: string)
    requires ValidScopeName(s)
    requires NestedName(t, s) || MethodOf(t, s)
    ensures Search(RecursionPattern(s), t + suffix)
  {
    var u := t + suffix;
    assert u[..|t|] == t;
    if NestedName(t, s) {
      assert u[..|s + "::"|] == t[..|s + "::"|];
    } else {
      assert u[..|s|] == t[..|s|];
      assert u[|s|] == t[|s|];
    }
    RecursionPatternMeaning(s, u);
  }

  /** The boundary cases: `Foo*` matches `Foo::Bar` (its match length is 3)
      and neither `Bar`, nor `FooBar`, nor `FooBar::Baz`. */
  lemma {:induction false} MatchesNested()
    ensures MatchLength(Recursive("Foo"), Exact("Foo::Bar")) == 3
  {
    RecursionPatternMeaning("Foo", "Foo::Bar");
    assert "Foo::Bar"[..5] == "Foo::";
  }

  lemma {:induction false} RejectsUnrelated()
    ensures MatchLength(Recursive("Foo"), Exact("Bar")) == 0
  {
    RecursionPatternMeaning("Foo", "Bar");
    assert "Bar"[0] != "Foo"[0];
  }

  lemma {:induction false} RejectsLongerName()
    ensures MatchLength(Recursive("Foo"), Exact("FooBar")) == 0
    ensures MatchLength(Recursive("Foo"), Exact("FooBar::Baz")) == 0
  {
    var t, u := "FooBar", "FooBar::Baz";
    RecursionPatternMeaning("Foo", t);
    assert t[3] == 'B';
    assert |t| > 5 ==> t[..5][3] == t[3];
    RecursionPatternMeaning("Foo", u);
    assert u[3] == 'B';
    assert u[..5][3] == u[3];
  }

  /** The configuration's expression parser: `Some` for the input it
      accepts. `try_parse` gives nil where this gives `None`; `call` raises. */
  type Parser = string -> Option<Expression>
}
