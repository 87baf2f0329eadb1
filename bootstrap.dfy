/** Bootstrapping the environment: deciding which scopes of the program
    under test can be named by an expression, indexing them sorted by their
    expressions' syntax, and collecting the mutations of all subjects. */
module Bootstrap {
  import opened Wrappers
  import opened Seqs
  import opened Expressions
  import opened Entities
  import opened Environment

  /** `SEMANTICS_MESSAGE` */
  const SemanticsMessage: string :=
    "Fix your lib to follow normal ruby semantics!\n" +
    "{Module,Class}#name should return resolvable constant name as String or nil"

  /** A value together with the warnings reported while computing it. */
  datatype Warned<T> = Warned(value: T, warnings: seq<string>)

  /** The warning for a scope whose `#name` raised. */
  function RaisedWarning(scope: Scope, exceptionInspect: string): string
  {
    scope.className + "#name from: " + scope.inspect + " raised an error: " + exceptionInspect + ". " + SemanticsMessage
  }

  /** The warning for a scope whose `#name` returned something that is not a
      String, given that value's `inspect`. */
  function ReturnedWarning(scope: Scope, nameInspect: string): string
  {
    scope.className + "#name from: " + scope.inspect + " returned " + nameInspect + ". " + SemanticsMessage
  }

  /** `scope_name`: the scope's name, or nil with one warning when `#name`
      raises. */
  function ScopeName(scope: Scope): (r: Warned<RubyValue>)
    ensures scope.name.Raises? ==> r == Warned(Nil, [RaisedWarning(scope, scope.name.exceptionInspect)])
    ensures scope.name.Returns? ==> r == Warned(scope.name.value, [])
  {
    match scope.name
    case Raises(exceptionInspect) => Warned(Nil, [RaisedWarning(scope, exceptionInspect)])
    case Returns(value) => Warned(value, [])
  }

  /** A scope whose `#name` does not follow Ruby's semantics: it raises, or
      it returns a truthy value that is not exactly a String. */
  predicate Misbehaves(scope: Scope)
  {
    scope.name.Raises? || scope.name.value.OtherValue?
  }

  /** `expression(scope)`: nothing for a scope named nil or false (and for one
      whose name raised), nothing and a warning for a name that is not a
      String, and whatever `try_parse` makes of a String name. */
  function ExpressionOf(scope: Scope, parser: Parser): (r: Warned<Option<Expression>>)
    ensures scope.name.Raises? ==>
      r.value.None? && r.warnings == [RaisedWarning(scope, scope.name.exceptionInspect)]
    ensures scope.name.Returns? && (scope.name.value.Nil? || scope.name.value.False?) ==>
      r.value.None? && r.warnings == []
    ensures scope.name.Returns? && scope.name.value.OtherValue? ==>
      r.value.None? && r.warnings == [ReturnedWarning(scope, scope.name.value.inspect)]
    ensures scope.name.Returns? && scope.name.value.Str? ==>
      r.value == parser(scope.name.value.s) && r.warnings == []
  {
    var name := ScopeName(scope);
    match name.value
    case Nil => Warned(None, name.warnings)
    case False => Warned(None, name.warnings)
    case OtherValue(inspect) => Warned(None, name.warnings + [ReturnedWarning(scope, inspect)])
    case Str(s) => Warned(parser(s), name.warnings)
  }

  /** A scope warns exactly when it misbehaves, and then once. */
  lemma WarnsIffMisbehaves(scope: Scope, parser: Parser)
    ensures Misbehaves(scope) <==> |ExpressionOf(scope, parser).warnings| == 1
    ensures !Misbehaves(scope) <==> ExpressionOf(scope, parser).warnings == []
    ensures Misbehaves(scope) ==> ExpressionOf(scope, parser).value.None?
  {
  }

  /** The scopes kept by `initialize_matchable_scopes`, in input order. */
  function Matchable(scopes: seq<Scope>, parser: Parser): seq<MatchableScope>
  {
    if scopes == [] then []
    else
      var n := |scopes| - 1;
      var rest := Matchable(scopes[..n], parser);
      match ExpressionOf(scopes[n], parser).value
      case Some(e) => rest + [MatchableScope(scopes[n], e)]
      case None => rest
  }

  /** The warnings reported while indexing, in input order. */
  function ScopeWarnings(scopes: seq<Scope>, parser: Parser): seq<string>
  {
    if scopes == [] then []
    else
      var n := |scopes| - 1;
      ScopeWarnings(scopes[..n], parser) + ExpressionOf(scopes[n], parser).warnings
  }

  /** The matchable scopes are exactly the input scopes that have an
      expression, each paired with it; there are never more of them than
      input scopes. */
  lemma {:induction false} MatchableMeaning(scopes: seq<Scope>, parser: Parser)
    ensures |Matchable(scopes, parser)| <= |scopes|
    ensures forall i :: 0 <= i < |Matchable(scopes, parser)| ==>
      var m := Matchable(scopes, parser)[i];
      m.scope in scopes && ExpressionOf(m.scope, parser).value == Some(m.expression)
    ensures forall j :: 0 <= j < |scopes| && ExpressionOf(scopes[j], parser).value.Some? ==>
      MatchableScope(scopes[j], ExpressionOf(scopes[j], parser).value.value) in Matchable(scopes, parser)
  {
    if scopes != [] {
      var n := |scopes| - 1;
      var prefix := scopes[..n];
      MatchableMeaning(prefix, parser);
      assert forall j :: 0 <= j < n ==> scopes[j] == prefix[j];
    }
  }

  /** Every scope reports at most one warning, and a program whose scopes
      all follow Ruby's naming semantics reports none. */
  lemma {:induction false} ScopeWarningsBound(scopes: seq<Scope>, parser: Parser)
    ensures |ScopeWarnings(scopes, parser)| <= |scopes|
    ensures (forall i :: 0 <= i < |scopes| ==> !Misbehaves(scopes[i])) ==> ScopeWarnings(scopes, parser) == []
  {
    if scopes != [] {
      var n := |scopes| - 1;
      ScopeWarningsBound(scopes[..n], parser);
      WarnsIffMisbehaves(scopes[n], parser);
    }
  }

  // ---------------------------------------------------------------------
  // `sort_by { |scope| scope.expression.syntax }`

  /** String order (`String#<=>`), character by character. */
  predicate LexLe(a: string, b: string)
  {
    a == [] || (b != [] && (a[0] < b[0] || (a[0] == b[0] && LexLe(a[1..], b[1..]))))
  }

  lemma {:induction false} LexLeTotal(a: string, b: string)
    ensures LexLe(a, b) || LexLe(b, a)
  {
    if a != [] && b != [] && a[0] == b[0] {
      LexLeTotal(a[1..], b[1..]);
    }
  }

  lemma {:induction false} LexLeTransitive(a: string, b: string, c: string)
    requires LexLe(a, b) && LexLe(b, c)
    ensures LexLe(a, c)
  {
    if a != [] && a[0] == b[0] && b[0] == c[0] {
      LexLeTransitive(a[1..], b[1..], c[1..]);
    }
  }

  /** The sort key. */
  function SyntaxKey(m: MatchableScope): string
  {
    Syntax(m.expression)
  }

  ghost predicate SortedBySyntax(s: seq<MatchableScope>)
  {
    forall i, j :: 0 <= i < j < |s| ==> LexLe(SyntaxKey(s[i]), SyntaxKey(s[j]))
  }

  /** Insert into a sorted sequence. */
  function Insert(x: MatchableScope, s: seq<MatchableScope>): (r: seq<MatchableScope>)
    ensures multiset(r) == multiset(s) + multiset{x}
  {
    if s == [] then [x]
    else if LexLe(SyntaxKey(x), SyntaxKey(s[0])) then [x] + s
    else
      assert s == [s[0]] + s[1..];
      [s[0]] + Insert(x, s[1..])
  }

  lemma SortedCons(y: MatchableScope, rest: seq<MatchableScope>)
    requires SortedBySyntax(rest)
    requires forall j :: 0 <= j < |rest| ==> LexLe(SyntaxKey(y), SyntaxKey(rest[j]))
    ensures SortedBySyntax([y] + rest)
  {
    var r := [y] + rest;
    forall i, j | 0 <= i < j < |r| ensures LexLe(SyntaxKey(r[i]), SyntaxKey(r[j])) {
      if i > 0 {
        assert r[i] == rest[i - 1] && r[j] == rest[j - 1];
      }
    }
  }

  lemma {:induction false} InsertKeepsSorted(x: MatchableScope, s: seq<MatchableScope>)
    requires SortedBySyntax(s)
    ensures SortedBySyntax(Insert(x, s))
  {
    if s != [] {
      if LexLe(SyntaxKey(x), SyntaxKey(s[0])) {
        forall j | 0 <= j < |s| ensures LexLe(SyntaxKey(x), SyntaxKey(s[j])) {
          if j > 0 {
            LexLeTransitive(SyntaxKey(x), SyntaxKey(s[0]), SyntaxKey(s[j]));
          }
        }
        SortedCons(x, s);
      } else {
        var tail := Insert(x, s[1..]);
        InsertKeepsSorted(x, s[1..]);
        LexLeTotal(SyntaxKey(x), SyntaxKey(s[0]));
        forall j | 0 <= j < |tail|
          ensures LexLe(SyntaxKey(s[0]), SyntaxKey(tail[j]))
        {
          assert tail[j] in multiset(tail);
          if tail[j] != x {
            assert tail[j] in s[1..];
          }
        }
        SortedCons(s[0], tail);
      }
    }
  }

  /** `sort_by` the expressions' syntax. Ruby's sort is not stable; this
      is one of the orders it may produce. */
  function SortBySyntax(s: seq<MatchableScope>): (r: seq<MatchableScope>)
    ensures multiset(r) == multiset(s)
  {
    if s == [] then []
    else
      assert s == [s[0]] + s[1..];
      Insert(s[0], SortBySyntax(s[1..]))
  }

  /** The result is sorted by syntax and a permutation of the input. */
  lemma {:induction false} SortBySyntaxSorts(s: seq<MatchableScope>)
    ensures SortedBySyntax(SortBySyntax(s))
    ensures multiset(SortBySyntax(s)) == multiset(s)
  {
    if s != [] {
      SortBySyntaxSorts(s[1..]);
      InsertKeepsSorted(s[0], SortBySyntax(s[1..]));
    }
  }

  /** The bootstrap object, as far as indexing scopes goes: the
      configuration's expression parser and reporter (the warnings it was
      handed, in order) and the matchable scopes. */
  class Bootstrapper {
    const parser: Parser
    var warnings: seq<string>
    var matchableScopes: seq<MatchableScope>

    /** `initialize`, less `infect`: the scopes are what
        `ObjectSpace.each_object(Module)` enumerates. */
    constructor (parser: Parser, scopes: seq<Scope>)
      ensures this.parser == parser
      ensures warnings == ScopeWarnings(scopes, parser)
      ensures matchableScopes == SortBySyntax(Matchable(scopes, parser))
    {
      this.parser := parser;
      warnings := [];
      matchableScopes := [];
      new;
      InitializeMatchableScopes(scopes);
    }

    /** `initialize_matchable_scopes` */
    method InitializeMatchableScopes(scopes: seq<Scope>)
      modifies this
      ensures warnings == old(warnings) + ScopeWarnings(scopes, parser)
      ensures matchableScopes == SortBySyntax(Matchable(scopes, parser))
    {
      var aggregate: seq<MatchableScope> := [];
      var i := 0;
      while i < |scopes|
        invariant 0 <= i <= |scopes|
        invariant aggregate == Matchable(scopes[..i], parser)
        invariant warnings == old(warnings) + ScopeWarnings(scopes[..i], parser)
      {
        assert scopes[..i + 1][..i] == scopes[..i];
        var expression := ExpressionOf(scopes[i], parser);
        warnings := warnings + expression.warnings;
        if expression.value.Some? {
          aggregate := aggregate + [MatchableScope(scopes[i], expression.value.value)];
        }
        i := i + 1;
      }
      assert scopes[..i] == scopes;
      matchableScopes := SortBySyntax(aggregate);
    }
  }

  // ---------------------------------------------------------------------
  // `env`

  /** The mutations of each subject, in subject order. */
  function MutationLists(subjects: seq<Subject>, mutationsOf: Subject -> seq<Mutation>): (r: seq<seq<Mutation>>)
    ensures |r| == |subjects| && forall i :: 0 <= i < |subjects| ==> r[i] == mutationsOf(subjects[i])
  {
    seq(|subjects|, i requires 0 <= i < |subjects| => mutationsOf(subjects[i]))
  }

  /** `env`: the environment built from the matched subjects. */
  function EnvOf(config: Config, subjects: seq<Subject>, matchableScopes: seq<MatchableScope>,
                 mutationsOf: Subject -> seq<Mutation>): (env: Env)
    ensures env.config == config && env.subjects == subjects && env.matchableScopes == matchableScopes
  {
    Env(config, subjects, matchableScopes, Flatten(MutationLists(subjects, mutationsOf)))
  }

  /** `subjects.flat_map(&:mutations)`: its length is the sum of the
      subjects' counts, each mutation comes from some subject, and the
      mutations of earlier subjects come first. */
  lemma EnvMutations(config: Config, subjects: seq<Subject>, matchableScopes: seq<MatchableScope>,
                     mutationsOf: Subject -> seq<Mutation>, more: seq<Subject>, m: Mutation)
    ensures var env := EnvOf(config, subjects, matchableScopes, mutationsOf);
      |env.mutations| == SumLengths(MutationLists(subjects, mutationsOf)) &&
      (m in env.mutations <==> exists i :: 0 <= i < |subjects| && m in mutationsOf(subjects[i])) &&
      EnvOf(config, subjects + more, matchableScopes, mutationsOf).mutations ==
        env.mutations + EnvOf(config, more, matchableScopes, mutationsOf).mutations
  {
    var lists := MutationLists(subjects, mutationsOf);
    FlattenLength(lists);
    FlattenMembers(lists, m);
    assert MutationLists(subjects + more, mutationsOf) == lists + MutationLists(more, mutationsOf);
    FlattenAppend(lists, MutationLists(more, mutationsOf));
  }
}
