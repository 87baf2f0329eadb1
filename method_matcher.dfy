/** The matcher for one method: it yields at most one subject, and skips
    (with a warning) methods whose source cannot be read or that were
    defined inside a block by third-party code. */
module MethodMatcher {
  import opened Wrappers
  import opened Regex
  import opened Ast
  import opened Entities

  /** `Method#source_location`: a file path and a line. */
  datatype SourceLocation = SourceLocation(path: string, line: int)

  /** The method being matched, as far as the matcher looks at it. */
  datatype TargetMethod = TargetMethod(inspect: string, sourceLocation: Option<SourceLocation>)

  /** BLACKLIST = `%r{\Akernel/|(eval)}`: precompiled kernel methods, and (the
      parentheses being a group, not literal characters) any path containing
      `eval`. */
  const Blacklist: seq<Pattern> := [[Start] + Lits("kernel/"), Lits("eval")]

  lemma BlacklistMeaning(path: string)
    ensures Search(Blacklist, path) <==> StartsWith(path, "kernel/") || Contains(path, "eval")
  {
    var kernel, eval := [Start] + Lits("kernel/"), Lits("eval");
    assert Blacklist == [kernel, eval];
    assert kernel[1..] == Lits("kernel/") + [];
    assert eval == Lits("eval") + [];
    MatchLits("kernel/", [], path, 0);
    if |"kernel/"| <= |path| {
      assert path[0..|"kernel/"|] == path[..|"kernel/"|];
    }
    if Search(Blacklist, path) {
      var i, k :| 0 <= i < 2 && 0 <= k <= |path| && MatchAt(Blacklist[i], path, k);
      if i == 1 {
        MatchLits("eval", [], path, k);
      }
    }
    if Contains(path, "eval") {
      var k: nat :| k <= |path| && SpellsAt(path, "eval", k);
      MatchLits("eval", [], path, k);
      assert MatchAt(Blacklist[1], path, k);
    }
    if StartsWith(path, "kernel/") {
      assert MatchAt(Blacklist[0], path, 0);
    }
  }

  /** The literal text `(eval)`, which Ruby reports for code created by
      `eval`, is rejected, and so is any other path that merely contains
      `eval`. */
  lemma BlacklistedPaths()
    ensures Search(Blacklist, "(eval)")
    ensures Search(Blacklist, "lib/evaluator.rb")
    ensures Search(Blacklist, "kernel/common/array.rb")
  {
    BlacklistMeaning("(eval)");
    assert SpellsAt("(eval)", "eval", 1);
    BlacklistMeaning("lib/evaluator.rb");
    assert SpellsAt("lib/evaluator.rb", "eval", 4);
    BlacklistMeaning("kernel/common/array.rb");
    assert "kernel/common/array.rb"[..7] == "kernel/";
  }

  /** An ordinary library path is not blacklisted. */
  lemma OrdinaryPathNotBlacklisted()
    ensures !Search(Blacklist, "lib/foo.rb")
  {
    var p := "lib/foo.rb";
    BlacklistMeaning(p);
    forall k: nat | k <= |p| ensures !SpellsAt(p, "eval", k) {
      if k + 4 <= |p| {
        assert p[k..k + 4][0] == p[k];
      }
    }
    assert p[0] != "kernel/"[0];
  }

  function InvalidLocationWarning(t: TargetMethod): string
  {
    t.inspect + " does not have valid source location unable to emit subject"
  }

  function ThirdPartyWarning(t: TargetMethod): string
  {
    t.inspect + " is defined from a 3rd party lib unable to emit subject"
  }

  /** The source location is missing or blacklisted. */
  predicate InvalidLocation(t: TargetMethod)
  {
    t.sourceLocation.None? || Search(Blacklist, t.sourceLocation.value.path)
  }

  predicate BlockOnPath(path: seq<Node>)
  {
    exists i :: 0 <= i < |path| && IsBlock(path[i])
  }

  /** What `#each` yields and which warnings it reports. */
  datatype Outcome = Outcome(subjects: seq<Subject>, warnings: seq<string>)

  /** `skip?`: whether to skip, and the warnings issued while deciding. The
      matched path is only looked at when the location is acceptable. */
  function Skip(t: TargetMethod, matchedPath: seq<Node>): (r: (bool, seq<string>))
    ensures r.0 <==> InvalidLocation(t) || BlockOnPath(matchedPath)
    ensures |r.1| == (if r.0 then 1 else 0)
  {
    if InvalidLocation(t) then (true, [InvalidLocationWarning(t)])
    else if BlockOnPath(matchedPath) then (true, [ThirdPartyWarning(t)])
    else (false, [])
  }

  /** `subject`: built from the last node of the matched path, if any. */
  function SubjectOf(scope: Scope, t: TargetMethod, matchedPath: seq<Node>): (r: Option<Subject>)
    requires t.sourceLocation.Some?
    ensures r.Some? <==> matchedPath != []
    ensures r.Some? ==> r.value.node == matchedPath[|matchedPath| - 1] &&
                        r.value.context == Context(scope, t.sourceLocation.value.path)
  {
    if matchedPath == [] then None
    else Some(Subject(Context(scope, t.sourceLocation.value.path), matchedPath[|matchedPath| - 1]))
  }

  /** `each` with a block: yields the subject unless skipped or absent. */
  function Each(scope: Scope, t: TargetMethod, matchedPath: seq<Node>): (r: Outcome)
    ensures |r.subjects| <= 1
    ensures |r.warnings| <= 1
    ensures r.subjects != [] ==> r.warnings == []
  {
    var (skip, warnings) := Skip(t, matchedPath);
    if skip then Outcome([], warnings)
    else match SubjectOf(scope, t, matchedPath)
      case None => Outcome([], warnings)
      case Some(s) => Outcome([s], warnings)
  }

  /** A method without source location yields nothing and one warning. */
  lemma NilLocationSkips(scope: Scope, t: TargetMethod, matchedPath: seq<Node>)
    requires t.sourceLocation.None?
    ensures Each(scope, t, matchedPath) == Outcome([], [InvalidLocationWarning(t)])
  {
  }

  /** A source path starting with `kernel/` or containing `eval` anywhere
      yields nothing and one warning. */
  lemma {:induction false} BlacklistedPathSkips(scope: Scope, t: TargetMethod, matchedPath: seq<Node>)
    requires t.sourceLocation.Some?
    requires StartsWith(t.sourceLocation.value.path, "kernel/") || Contains(t.sourceLocation.value.path, "eval")
    ensures Each(scope, t, matchedPath) == Outcome([], [InvalidLocationWarning(t)])
  {
    BlacklistMeaning(t.sourceLocation.value.path);
  }

  /** With an acceptable location, a block anywhere on the matched path
      yields nothing and one warning. */
  lemma BlockOnPathSkips(scope: Scope, t: TargetMethod, matchedPath: seq<Node>, i: nat)
    requires !InvalidLocation(t)
    requires i < |matchedPath| && IsBlock(matchedPath[i])
    ensures Each(scope, t, matchedPath) == Outcome([], [ThirdPartyWarning(t)])
  {
  }

  /** The location check comes first: when it skips, the matched path makes
      no difference. */
  lemma LocationCheckedFirst(scope: Scope, t: TargetMethod, path1: seq<Node>, path2: seq<Node>)
    requires InvalidLocation(t)
    ensures Each(scope, t, path1) == Each(scope, t, path2)
  {
  }

  /** Otherwise the subject is built from the last node of the path, without
      any warning; an empty path yields nothing. */
  lemma YieldsLastNode(scope: Scope, t: TargetMethod, matchedPath: seq<Node>)
    requires !InvalidLocation(t) && !BlockOnPath(matchedPath)
    ensures var r := Each(scope, t, matchedPath);
      && r.warnings == []
      && (matchedPath == [] ==> r.subjects == [])
      && (matchedPath != [] ==>
            r.subjects == [Subject(Context(scope, t.sourceLocation.value.path), matchedPath[|matchedPath| - 1])])
  {
  }
}
