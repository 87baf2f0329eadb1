/** The RSpec integration: it turns every RSpec example into a test with a
    unique identifier and the expression the example covers, and runs a
    selection of tests by narrowing RSpec's filtered examples in place. */
module Rspec {
  import opened Wrappers
  import opened Seqs
  import opened Expressions
  import opened Entities

  /** An RSpec example, by the metadata the integration reads. `uid` stands
      for the example object's identity (examples compare by identity). */
  datatype Example = Example(
    uid: nat,
    location: string,
    fullDescription: string,
    mutant: Option<bool>,              // metadata[:mutant], if present
    mutantExpression: Option<string>)  // metadata[:mutant_expression], if present

  /** Why building the test index or running tests raises. */
  datatype Error =
    | InvalidExpression(input: string)          // expression_parser.call rejected the input
    | NoExpressionCandidate(description: string) // EXPRESSION_CANDIDATE did not match: nil.captures
    | MissingTest(test: Test)                    // all_tests_index.fetch(test): KeyError

  /** `ALL_EXPRESSION`: the recursive expression with no scope name. */
  const AllExpression: Expression := Recursive("")

  // ---------------------------------------------------------------------
  // Test identifiers

  function DigitChar(d: nat): (c: char)
    requires d < 10
    ensures '0' <= c <= '9'
  {
    (48 + d) as char
  }

  /** The decimal representation of `n`, as string interpolation writes it. */
  function Digits(n: nat): (s: string)
    ensures |s| >= 1
    ensures forall i :: 0 <= i < |s| ==> '0' <= s[i] <= '9'
  {
    if n < 10 then [DigitChar(n)] else Digits(n / 10) + [DigitChar(n % 10)]
  }

  /** Reading a string of decimal digits back as a number. */
  function ParseDigits(s: string): nat
  {
    if s == [] then 0 else ParseDigits(s[..|s| - 1]) * 10 + (s[|s| - 1] as int - 48) % 10
  }

  lemma {:induction false} ParseDigitsInvertsDigits(n: nat)
    ensures ParseDigits(Digits(n)) == n
  {
    if n >= 10 {
      var s := Digits(n);
      assert s[..|s| - 1] == Digits(n / 10);
      ParseDigitsInvertsDigits(n / 10);
    }
  }

  /** Different indexes are written differently. */
  lemma DigitsInjective(m: nat, n: nat)
    ensures Digits(m) == Digits(n) ==> m == n
  {
    ParseDigitsInvertsDigits(m);
    ParseDigitsInvertsDigits(n);
  }

  /** The identifier `"rspec:#{index}:#{location}/#{full_description}"`. */
  function TestId(index: nat, location: string, fullDescription: string): string
  {
    "rspec:" + (Digits(index) + (":" + (location + "/" + fullDescription)))
  }

  /** The longest prefix of `s` without `sep`. */
  function PrefixBefore(s: string, sep: char): (r: string)
    ensures |r| <= |s| && r == s[..|r|]
    ensures forall i :: 0 <= i < |r| ==> r[i] != sep
    ensures |r| == |s| || s[|r|] == sep
  {
    if s == [] || s[0] == sep then [] else [s[0]] + PrefixBefore(s[1..], sep)
  }

  predicate Avoids(s: string, sep: char)
  {
    forall i :: 0 <= i < |s| ==> s[i] != sep
  }

  /** A string without `sep`, followed by `sep` or by nothing, is what
      comes before the first `sep`. */
  lemma {:induction false} PrefixBeforeOf(word: string, rest: string, sep: char)
    requires Avoids(word, sep)
    requires rest == [] || rest[0] == sep
    ensures PrefixBefore(word + rest, sep) == word
  {
    if word == [] {
      assert word + rest == rest;
    } else {
      assert (word + rest)[1..] == word[1..] + rest;
      PrefixBeforeOf(word[1..], rest, sep);
    }
  }

  /** The example index makes identifiers unique, whatever the locations and
      descriptions: two identifiers that agree come from the same index. */
  lemma TestIdDeterminesIndex(i: nat, location1: string, description1: string,
                              j: nat, location2: string, description2: string)
    requires TestId(i, location1, description1) == TestId(j, location2, description2)
    ensures i == j
  {
    var t1 := Digits(i) + (":" + (location1 + "/" + description1));
    var t2 := Digits(j) + (":" + (location2 + "/" + description2));
    assert t1 == TestId(i, location1, description1)[6..];
    assert t2 == TestId(j, location2, description2)[6..];
    PrefixBeforeOf(Digits(i), ":" + (location1 + "/" + description1), ':');
    PrefixBeforeOf(Digits(j), ":" + (location2 + "/" + description2), ':');
    DigitsInjective(i, j);
  }

  // ---------------------------------------------------------------------
  // Expressions of examples

  /** The capture of `EXPRESSION_CANDIDATE = /\A([^ ]+)(?: )?/`: the
      non-empty, maximal run of non-space characters the description starts
      with; no match when the description is empty or starts with a space. */
  function ExpressionCandidate(description: string): (r: Option<string>)
    ensures r.None? <==> description == [] || description[0] == ' '
    ensures r.Some? ==> var c := r.value;
      0 < |c| <= |description| && c == description[..|c|] &&
      (forall i :: 0 <= i < |c| ==> c[i] != ' ') &&
      (|c| == |description| || description[|c|] == ' ')
  {
    var word := PrefixBefore(description, ' ');
    if word == [] then None else Some(word)
  }

  /** `parse_expression`: an explicit `mutant_expression` must parse; otherwise
      the first word of the full description is tried, and an example whose
      first word is no expression covers everything. */
  function ParseExpression(example: Example, parser: Parser): (r: Result<Expression, Error>)
    ensures example.mutantExpression.Some? ==>
      var input := example.mutantExpression.value;
      (r.Ok? <==> parser(input).Some?) &&
      (r.Ok? ==> r.value == parser(input).value) &&
      (r.Err? ==> r.error == InvalidExpression(input))
    ensures example.mutantExpression.None? ==>
      (r.Err? <==> ExpressionCandidate(example.fullDescription).None?) &&
      (r.Err? ==> r.error == NoExpressionCandidate(example.fullDescription))
  {
    match example.mutantExpression
    case Some(input) =>
      (match parser(input)
       case Some(e) => Ok(e)
       case None => Err(InvalidExpression(input)))
    case None =>
      (match ExpressionCandidate(example.fullDescription)
       case None => Err(NoExpressionCandidate(example.fullDescription))
       case Some(candidate) => Ok(parser(candidate).GetOr(AllExpression)))
  }

  /** The description is `word`, or `word`, a space and more. */
  predicate StartsWithWord(description: string, word: string)
  {
    |word| <= |description| && description[..|word|] == word &&
    (|word| == |description| || description[|word|] == ' ')
  }

  /** The candidate is the description's first word, whether or not more
      words follow. */
  lemma CandidateIsFirstWord(description: string, word: string)
    requires word != [] && Avoids(word, ' ')
    requires StartsWithWord(description, word)
    ensures ExpressionCandidate(description) == Some(word)
  {
    assert description == word + description[|word|..];
    PrefixBeforeOf(word, description[|word|..], ' ');
  }

  /** An example without `mutant_expression` whose first word parses covers
      what that word names; one whose first word does not parse covers
      everything. */
  lemma DescriptionNamesTheExpression(example: Example, parser: Parser, word: string)
    requires example.mutantExpression.None?
    requires word != [] && Avoids(word, ' ')
    requires StartsWithWord(example.fullDescription, word)
    ensures parser(word).Some? ==> ParseExpression(example, parser) == Ok(parser(word).value)
    ensures parser(word).None? ==> ParseExpression(example, parser) == Ok(AllExpression)
  {
    CandidateIsFirstWord(example.fullDescription, word);
  }

  /** Descriptions the way RSpec spells them. */
  lemma CandidateOfDescription()
    ensures ExpressionCandidate("Foo::Bar#baz returns nil") == Some("Foo::Bar#baz")
  {
    CandidateIsFirstWord("Foo::Bar#baz returns nil", "Foo::Bar#baz");
  }

  lemma NoCandidateOfBlankStart()
    ensures ExpressionCandidate(" returns nil").None?
    ensures ExpressionCandidate("").None?
  {
  }

  /** `parse_example`: the test for the example at position `index`. */
  function ParseExample(example: Example, index: nat, parser: Parser): (r: Result<Test, Error>)
    ensures r.Ok? <==> ParseExpression(example, parser).Ok?
    ensures r.Ok? ==> (r.value.id == TestId(index, example.location, example.fullDescription)
                       && r.value.expression == ParseExpression(example, parser).value)
    ensures r.Err? ==> r.error == ParseExpression(example, parser).error
  {
    match ParseExpression(example, parser)
    case Ok(expression) => Ok(Test(TestId(index, example.location, example.fullDescription), expression))
    case Err(e) => Err(e)
  }

  // ---------------------------------------------------------------------
  // The test index, a Ruby hash (keys kept in insertion order)

  predicate HasKey<K(==), V>(h: seq<(K, V)>, k: K)
  {
    exists i :: 0 <= i < |h| && h[i].0 == k
  }

  /** `hash.fetch(k)`, without the exception: the value stored under `k`. */
  function HashFetch<K(==), V>(h: seq<(K, V)>, k: K): (r: Option<V>)
    ensures r.Some? <==> HasKey(h, k)
    ensures r.Some? ==> exists i :: 0 <= i < |h| && h[i] == (k, r.value)
  {
    if h == [] then None
    else if h[0].0 == k then Some(h[0].1)
    else
      var r := HashFetch(h[1..], k);
      assert forall i :: 0 <= i < |h[1..]| ==> h[1..][i] == h[i + 1];
      r
  }

  /** `hash[k] = v`: overwrite in place when the key is present, append
      otherwise. */
  function HashPut<K(==), V>(h: seq<(K, V)>, k: K, v: V): (r: seq<(K, V)>)
    ensures !HasKey(h, k) ==> r == h + [(k, v)]
    ensures HasKey(h, k) ==> |r| == |h|
  {
    if h == [] then [(k, v)]
    else if h[0].0 == k then [(k, v)] + h[1..]
    else
      assert HasKey(h[1..], k) ==> HasKey(h, k) by {
        if HasKey(h[1..], k) {
          var i :| 0 <= i < |h[1..]| && h[1..][i].0 == k;
          assert h[i + 1].0 == k;
        }
      }
      [h[0]] + HashPut(h[1..], k, v)
  }

  /** A hash stores what was last put under a key, and putting one key
      leaves every other key's value alone. */
  lemma {:induction false} FetchAfterPut<K, V>(h: seq<(K, V)>, k: K, v: V, other: K)
    ensures HashFetch(HashPut(h, k, v), k) == Some(v)
    ensures other != k ==> HashFetch(HashPut(h, k, v), other) == HashFetch(h, other)
  {
    if h != [] && h[0].0 != k {
      FetchAfterPut(h[1..], k, v, other);
      assert HashPut(h, k, v)[1..] == HashPut(h[1..], k, v);
    }
  }

  /** `all_tests_index` over the selected examples, first to last; the first
      example that cannot be parsed raises. */
  function TestsIndex(examples: seq<Example>, parser: Parser): Result<seq<(Test, Example)>, Error>
  {
    if examples == [] then Ok([])
    else
      var n := |examples| - 1;
      match TestsIndex(examples[..n], parser)
      case Err(e) => Err(e)
      case Ok(h) =>
        match ParseExample(examples[n], n, parser)
        case Err(e) => Err(e)
        case Ok(t) => Ok(HashPut(h, t, examples[n]))
  }

  /** The index holds one entry per example, in order: example `i` under the
      test parsed from it at index `i`; no entry is ever overwritten. */
  predicate IndexesExamples(h: seq<(Test, Example)>, examples: seq<Example>, parser: Parser)
  {
    |h| == |examples| &&
    forall i :: 0 <= i < |h| ==> h[i].1 == examples[i] && ParseExample(examples[i], i, parser) == Ok(h[i].0)
  }

  /** A test parsed at index `n` is not yet a key of the index of the `n`
      examples before it. */
  lemma FreshKey(h: seq<(Test, Example)>, prefix: seq<Example>, parser: Parser, t: Test, location: string, description: string)
    requires IndexesExamples(h, prefix, parser)
    requires t.id == TestId(|prefix|, location, description)
    ensures !HasKey(h, t)
  {
    if HasKey(h, t) {
      var i :| 0 <= i < |h| && h[i].0 == t;
      assert ParseExample(prefix[i], i, parser) == Ok(h[i].0);
      TestIdDeterminesIndex(i, prefix[i].location, prefix[i].fullDescription, |prefix|, location, description);
    }
  }

  /** Appending the entry for the next example keeps the index in step. */
  lemma IndexesExamplesStep(h: seq<(Test, Example)>, prefix: seq<Example>, parser: Parser, e: Example, t: Test)
    requires IndexesExamples(h, prefix, parser)
    requires ParseExample(e, |prefix|, parser) == Ok(t)
    ensures IndexesExamples(h + [(t, e)], prefix + [e], parser)
  {
  }

  /** The index is built exactly when every example parses. */
  lemma {:induction false} TestsIndexOk(examples: seq<Example>, parser: Parser)
    ensures TestsIndex(examples, parser).Ok? <==>
      forall i :: 0 <= i < |examples| ==> ParseExample(examples[i], i, parser).Ok?
  {
    if examples != [] {
      var n := |examples| - 1;
      var prefix := examples[..n];
      TestsIndexOk(prefix, parser);
      assert forall i :: 0 <= i < n ==> prefix[i] == examples[i];
    }
  }

  /** A built index holds example `i` under the test parsed from it at index
      `i`, one entry per example and in order. */
  lemma {:induction false} TestsIndexShape(examples: seq<Example>, parser: Parser)
    ensures TestsIndex(examples, parser).Ok? ==> IndexesExamples(TestsIndex(examples, parser).value, examples, parser)
  {
    if examples != [] {
      var n := |examples| - 1;
      var prefix := examples[..n];
      TestsIndexShape(prefix, parser);
      var t := ParseExample(examples[n], n, parser);
      if TestsIndex(prefix, parser).Ok? && t.Ok? {
        var h := TestsIndex(prefix, parser).value;
        FreshKey(h, prefix, parser, t.value, examples[n].location, examples[n].fullDescription);
        IndexesExamplesStep(h, prefix, parser, examples[n], t.value);
        assert prefix + [examples[n]] == examples;
      }
    }
  }

  /** An error while parsing a prefix of the examples is the error of the
      whole index. */
  lemma {:induction false} TestsIndexErrorPersists(examples: seq<Example>, n: nat, parser: Parser)
    requires n <= |examples|
    requires TestsIndex(examples[..n], parser).Err?
    ensures TestsIndex(examples, parser) == TestsIndex(examples[..n], parser)
    decreases |examples| - n
  {
    if n < |examples| {
      var m := |examples| - 1;
      assert examples[..m][..n] == examples[..n];
      TestsIndexErrorPersists(examples[..m], n, parser);
    } else {
      assert examples[..n] == examples;
    }
  }

  /** `all_tests_index`, entry by entry. */
  method AllTestsIndex(examples: seq<Example>, parser: Parser) returns (r: Result<seq<(Test, Example)>, Error>)
    ensures r == TestsIndex(examples, parser)
  {
    var index: seq<(Test, Example)> := [];
    var i := 0;
    while i < |examples|
      invariant 0 <= i <= |examples|
      invariant TestsIndex(examples[..i], parser) == Ok(index)
    {
      assert examples[..i + 1][..i] == examples[..i];
      var t := ParseExample(examples[i], i, parser);
      if t.Err? {
        TestsIndexErrorPersists(examples, i + 1, parser);
        return Err(t.error);
      }
      index := HashPut(index, t.value, examples[i]);
      i := i + 1;
    }
    assert examples[..i] == examples;
    return Ok(index);
  }

  /** The keys of a hash, in order. */
  function Keys<K, V>(h: seq<(K, V)>): (ks: seq<K>)
    ensures |ks| == |h| && forall i :: 0 <= i < |h| ==> ks[i] == h[i].0
  {
    if h == [] then [] else [h[0].0] + Keys(h[1..])
  }

  /** `all_tests`: the index's keys, that is, the test parsed from each
      example at its position, in example order; the first example that
      cannot be parsed raises. */
  function AllTests(examples: seq<Example>, parser: Parser): (r: Result<seq<Test>, Error>)
    ensures r.Ok? <==> forall i :: 0 <= i < |examples| ==> ParseExample(examples[i], i, parser).Ok?
    ensures r.Ok? ==> |r.value| == |examples|
    ensures r.Ok? ==> forall i :: 0 <= i < |examples| ==> ParseExample(examples[i], i, parser) == Ok(r.value[i])
  {
    TestsIndexOk(examples, parser);
    TestsIndexShape(examples, parser);
    match TestsIndex(examples, parser)
    case Ok(h) => Ok(Keys(h))
    case Err(e) => Err(e)
  }

  /** There is one test per example, with pairwise distinct identifiers, and
      test `i` names example `i`'s location and description. */
  lemma AllTestsAreDistinct(examples: seq<Example>, parser: Parser)
    requires AllTests(examples, parser).Ok?
    ensures var tests := AllTests(examples, parser).value;
      |tests| == |examples| &&
      (forall i :: 0 <= i < |tests| ==>
         tests[i].id == TestId(i, examples[i].location, examples[i].fullDescription)) &&
      (forall i, j :: 0 <= i < j < |tests| ==> tests[i].id != tests[j].id)
  {
    TestsIndexShape(examples, parser);
    var tests := AllTests(examples, parser).value;
    forall i, j | 0 <= i < j < |tests|
      ensures tests[i].id != tests[j].id
    {
      if tests[i].id == tests[j].id {
        TestIdDeterminesIndex(i, examples[i].location, examples[i].fullDescription,
                              j, examples[j].location, examples[j].fullDescription);
      }
    }
  }

  // ---------------------------------------------------------------------
  // Examples

  /** `metadata.fetch(:mutant, true)`: examples take part unless they opt out. */
  predicate MutantEnabled(example: Example)
  {
    example.mutant.GetOr(true)
  }

  /** `all_examples`: the examples of every example group (each group
      followed by its descendants, in RSpec's order), less those that opt
      out. */
  function AllExamples(groups: seq<seq<Example>>): (r: seq<Example>)
    ensures forall i :: 0 <= i < |r| ==> MutantEnabled(r[i])
  {
    Filter(MutantEnabled, Flatten(groups))
  }

  /** Nothing is dropped but the examples that opt out, and the order of the
      groups is kept. */
  lemma AllExamplesMembers(groups: seq<seq<Example>>, e: Example)
    ensures e in AllExamples(groups) <==> MutantEnabled(e) && exists g :: 0 <= g < |groups| && e in groups[g]
    ensures IsSubsequence(AllExamples(groups), Flatten(groups))
  {
    FlattenMembers(groups, e);
    FilterIsSubsequence(MutantEnabled, Flatten(groups));
    var all := Flatten(groups);
    if e in all && MutantEnabled(e) {
      var i :| 0 <= i < |all| && all[i] == e;
      assert all[i] in AllExamples(groups);
    }
  }

  // ---------------------------------------------------------------------
  // Running tests

  /** `tests.map(&all_tests_index.method(:fetch))`: the example of each test,
      or a key error for the first test the index does not hold. */
  function FetchAll(h: seq<(Test, Example)>, tests: seq<Test>): (r: Result<seq<Example>, Error>)
    ensures r.Ok? <==> forall i :: 0 <= i < |tests| ==> HasKey(h, tests[i])
    ensures r.Ok? ==> |r.value| == |tests|
    ensures r.Ok? ==> forall i :: 0 <= i < |tests| ==> HashFetch(h, tests[i]) == Some(r.value[i])
    ensures r.Err? ==> r.error.MissingTest? && r.error.test in tests && !HasKey(h, r.error.test)
  {
    if tests == [] then Ok([])
    else
      match HashFetch(h, tests[0])
      case None => Err(MissingTest(tests[0]))
      case Some(e) =>
        match FetchAll(h, tests[1..])
        case Err(err) => Err(err)
        case Ok(rest) =>
          assert forall i :: 1 <= i < |tests| ==> tests[i] == tests[1..][i - 1];
          Ok([e] + rest)
  }

  /** `examples.method(:include?)` */
  function IsAmong(selected: seq<Example>): Example -> bool
  {
    e => e in selected
  }

  /** Every group's examples after `keep_if(&predicate)`. */
  function FilteredBy(filtered: map<nat, seq<Example>>, keep: Example -> bool): map<nat, seq<Example>>
  {
    map k | k in filtered :: Filter(keep, filtered[k])
  }

  /** After filtering, every group keeps exactly its examples the predicate
      accepts, in their order, and no group appears or disappears. */
  lemma FilteredByMeaning(filtered: map<nat, seq<Example>>, keep: Example -> bool, k: nat, e: Example)
    ensures FilteredBy(filtered, keep).Keys == filtered.Keys
    ensures k in filtered ==>
      (e in FilteredBy(filtered, keep)[k] <==> e in filtered[k] && keep(e)) &&
      IsSubsequence(FilteredBy(filtered, keep)[k], filtered[k])
  {
    if k in filtered {
      FilterIsSubsequence(keep, filtered[k]);
      if e in filtered[k] && keep(e) {
        var i :| 0 <= i < |filtered[k]| && filtered[k][i] == e;
      }
    }
  }

  /** After a successful run's filtering, an example still in a group is the
      example of one of the tests asked for. */
  lemma KeptExamplesBelongToTests(h: seq<(Test, Example)>, tests: seq<Test>,
                                  filtered: map<nat, seq<Example>>, k: nat, e: Example)
    requires FetchAll(h, tests).Ok?
    requires k in filtered && e in FilteredBy(filtered, IsAmong(FetchAll(h, tests).value))[k]
    ensures e in filtered[k]
    ensures exists i :: 0 <= i < |tests| && HashFetch(h, tests[i]) == Some(e)
  {
    var selected := FetchAll(h, tests).value;
    FilteredByMeaning(filtered, IsAmong(selected), k, e);
    var i :| 0 <= i < |selected| && selected[i] == e;
    assert HashFetch(h, tests[i]) == Some(e);
  }

  /** `RSpec.world`, as far as the integration reads and writes it. */
  class World {
    /** Every example group followed by its descendants, each with its
        examples. */
    const exampleGroups: seq<seq<Example>>
    /** `filtered_examples`: a hash from groups to the examples to run. */
    var filteredExamples: map<nat, seq<Example>>

    constructor (exampleGroups: seq<seq<Example>>, filteredExamples: map<nat, seq<Example>>)
      ensures this.exampleGroups == exampleGroups && this.filteredExamples == filteredExamples
    {
      this.exampleGroups := exampleGroups;
      this.filteredExamples := filteredExamples;
    }
  }

  /** An instance of the RSpec integration. */
  class RspecIntegration {
    const world: World
    const parser: Parser
    /** The `StringIO` RSpec writes its output to; it is rewound, never
        cleared, so each read returns everything written so far. */
    var output: string

    constructor (world: World, parser: Parser)
      ensures this.world == world && this.parser == parser && output == ""
    {
      this.world := world;
      this.parser := parser;
      output := "";
    }

    /** `filter_examples(&keep)`: narrow every group's examples in place. */
    method FilterExamples(keep: Example -> bool)
      modifies world
      ensures world.filteredExamples == FilteredBy(old(world.filteredExamples), keep)
    {
      ghost var original := world.filteredExamples;
      var pending := world.filteredExamples.Keys;
      while pending != {}
        invariant pending <= original.Keys
        invariant world.filteredExamples.Keys == original.Keys
        invariant forall k :: k in original && k !in pending ==> world.filteredExamples[k] == Filter(keep, original[k])
        invariant forall k :: k in pending ==> world.filteredExamples[k] == original[k]
        decreases pending
      {
        var k :| k in pending;
        world.filteredExamples := world.filteredExamples[k := Filter(keep, world.filteredExamples[k])];
        pending := pending - {k};
      }
      assert world.filteredExamples == FilteredBy(original, keep);
    }

    /** `call(tests)`. Running the specs is RSpec's business: `exitStatus`
        is what `run_specs` returns, `written` what it writes to the output
        and `runtime` the time it takes. The tests pass exactly when the exit
        status is `EXIT_SUCCESS` (0). A test the index does not hold raises
        before anything is filtered or run. */
    method Call(tests: seq<Test>, exitStatus: int, written: string, runtime: real) returns (r: Result<TestResult, Error>)
      modifies this, world
      ensures match TestsIndex(AllExamples(world.exampleGroups), parser)
        case Err(e) => r == Err(e) && unchanged(this, world)
        case Ok(h) =>
          match FetchAll(h, tests)
          case Err(e) => r == Err(e) && unchanged(this, world)
          case Ok(selected) =>
            && world.filteredExamples == FilteredBy(old(world.filteredExamples), IsAmong(selected))
            && output == old(output) + written
            && r == Ok(TestResult(tests, output, runtime, exitStatus == 0))
    {
      var index := AllTestsIndex(AllExamples(world.exampleGroups), parser);
      if index.Err? {
        return Err(index.error);
      }
      var examples := FetchAll(index.value, tests);
      if examples.Err? {
        return Err(examples.error);
      }
      FilterExamples(IsAmong(examples.value));
      output := output + written;
      r := Ok(TestResult(tests, output, runtime, exitStatus == 0));
    }
  }
}
