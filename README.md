# mutant, core model

This project models the core of mutant, a mutation-testing engine for Ruby, in Dafny. Mutant parses the methods of a program (the *subjects*) and generates *mutations* of them. It runs the tests that cover each mutation against the mutated code. A mutation that no test catches shows a gap in the test suite.

The model covers these parts:

- **The send mutator.** It lists the mutations of a method call node: the naked receiver, selector replacements from the `SELECTOR_REPLACEMENTS` table, argument propagation, receiver mutations, dropping an explicit `self`, and argument mutations and deletions. Index assignments, binary operators and attribute assignments are routed to their own mutators instead. The mutator is a class with an emission buffer. Each dispatch method is proved to append exactly the variants that a specification function defines, and lemmas state what those variants are.
- **Namespace expressions** `Foo` and `Foo*`. They cover the recursion pattern a recursive expression builds and its `match_length`. The Ruby regular expressions involved are modelled by a small matcher (`Regex`). The pattern is proved to accept exactly a name, its nested names and its methods. A recursive expression matched against its own syntax `Foo*` has length 0, because none of the three alternatives accepts the trailing `*`.
- **The method matcher.** It covers the `BLACKLIST` regexp `%r{\Akernel/|(eval)}`, which matches a path that starts with `kernel/` or contains `eval` anywhere. It also covers the skip decision with its warnings, and yielding at most one subject.
- **The integration registry and the Null integration.** The Null integration never kills a mutation.
- **The RSpec integration.** It covers:
  - unique test identifiers `rspec:<index>:<location>/<description>`;
  - the expression chosen for an example;
  - selection by the `:mutant` flag;
  - the test index, a Ruby hash filled in a loop;
  - in-place `keep_if` filtering of RSpec's filtered examples;
  - the exit status → `passed` rule.
- **The environment.** `run_mutation_tests` runs the insertion of the mutation and the integration call inside the isolation boundary. Test selection, timing, the rescue of isolation errors and building the mutation result happen outside it. An isolation failure becomes a failing result.
- **Bootstrap.** Each scope gets its expression from its `#name`, with warnings for names that break Ruby's semantics. The matchable scopes are sorted by expression syntax, and the environment's mutation list is flattened from the subjects.
- **The runner.** The polling loop of `run_driver` is modelled as a trace of reporter, kernel and driver events. The runner also builds the parallel configuration and orders start, analysis and report.

Effects are modelled as data:

- Warnings are the sequence of messages handed to the reporter.
- Polling, sleeping, stopping and reporting are a trace of events.
- Emitted mutations are the mutator's output buffer.
- The isolation outcome, elapsed times, RSpec's exit status and output, the expression parser, the matched node path and the enumerated scopes are all parameters.

## Model

| member | source | states |
|---|---|---|
| MutatorSend.ReplacementsAreNew | lib/mutant/mutator/node/send.rb:13-34 | no selector is ever replaced by itself, and a selector's replacements are pairwise distinct |
| MutatorSend.FetchFromSoundTable | lib/mutant/mutator/node/send.rb:106 | looking up a key in a table whose entries are sound yields neither the key nor a duplicate |
| MutatorSend.SelectorReplacementTableShape | lib/mutant/mutator/node/send.rb:13-34 | `SELECTOR_REPLACEMENTS` has twenty entries and no selector is a key twice; the constant itself lists the entries in source order |
| MutatorSend.FetchUniqueKey | lib/mutant/mutator/node/send.rb:106 | in a table with distinct keys, `fetch(key, EMPTY_ARRAY)` gives the value of the key's entry, and nothing for an absent key |
| MutatorSend.Replacements | lib/mutant/mutator/node/send.rb:106 | a selector's replacements are those of its table entry, and none for a selector that is no key |
| MutatorSend.FetchFirstEntry | lib/mutant/mutator/node/send.rb:106 | `fetch(selector, EMPTY_ARRAY)` finds the first entry for the key, and nothing for an absent key |
| MutatorSend.EqualsReplacements | lib/mutant/mutator/node/send.rb:29 | `==` is replaced by `eql?` and `equal?`, in that order |
| MutatorSend.EqlReplacements | lib/mutant/mutator/node/send.rb:23 | `eql?` is replaced only by `equal?` |
| MutatorSend.EqualReplacements | lib/mutant/mutator/node/send.rb:13-34 | `equal?` has no replacements: the table is one-directional |
| MutatorSend.LessThanReplacements | lib/mutant/mutator/node/send.rb:33 | `<` becomes `==`, `<=`, `eql?`, `equal?` |
| MutatorSend.LessOrEqualReplacements | lib/mutant/mutator/node/send.rb:31 | `<=` becomes `<`, `==`, `eql?`, `equal?`, so `<` and `<=` are not mirror images |
| MutatorSend.SelectorVariantsMeaning | lib/mutant/mutator/node/send.rb:105-108 | one variant per table replacement, in table order, differing only in the selector; none is the call itself and none repeats |
| MutatorSend.NakedReceiver | lib/mutant/mutator/node/send.rb:117-119 | the receiver is emitted alone exactly when there is one and its type is not in NOT_ASSIGNABLE |
| MutatorSend.ArgumentPropagation | lib/mutant/mutator/node/send.rb:141-144 | the argument is emitted alone exactly when it is the only one and its type is not in NOT_STANDALONE |
| MutatorSend.ImplicitSelf | lib/mutant/mutator/node/send.rb:166-173 | `self.foo` becomes `foo` exactly when the receiver is `self` and the selector is no keyword or operator, the parent no op-assign and the call no attribute assignment |
| MutatorSend.ReceiverVariantsShape | lib/mutant/mutator/node/send.rb:152-158 | receiver variants keep selector and arguments, use only non-nil receiver mutations, and use each of them |
| MutatorSend.ArgumentVariantsShape | lib/mutant/mutator/node/send.rb:127-133 | each per-argument variant keeps receiver and selector and changes exactly one argument; their number is the child mutations plus one deletion per argument |
| MutatorSend.ArgumentVariantsAreNew | lib/mutant/mutator/node/send.rb:129-132 | no per-argument variant is the call itself when the child mutator never returns its input |
| MutatorSend.NormalVariantsAreNew | lib/mutant/mutator/node/send.rb:91-97 | with at least one argument, no rule of the normal dispatch reproduces the call itself |
| MutatorSend.ZeroArgumentFormOfArgumentlessCall | lib/mutant/mutator/node/send.rb:128 | for a call without arguments the zero-argument form `emit_type(receiver, selector)` is the call itself |
| MutatorSend.DispatchIsExclusive | lib/mutant/mutator/node/send.rb:44-67 | singletons first, then exactly one route: index assignment, binary operator, attribute assignment, or the normal rules, tried in that order |
| MutatorSend.SendMutator.constructor | lib/mutant/mutator/node/send.rb:11 | the mutator holds the node's receiver, selector and arguments and an empty buffer |
| MutatorSend.SendMutator.Emit | lib/mutant/mutator/node/send.rb:118 | emitting appends the node to the buffer |
| MutatorSend.SendMutator.EmitSingletons | lib/mutant/mutator/node/send.rb:45 | appends the singleton stand-ins |
| MutatorSend.SendMutator.Run | lib/mutant/mutator/node/send.rb:47 | appends what the delegated mutator produces |
| MutatorSend.SendMutator.Dispatch | lib/mutant/mutator/node/send.rb:44-51 | appends exactly the dispatch variants |
| MutatorSend.SendMutator.NonIndexDispatch | lib/mutant/mutator/node/send.rb:59-67 | appends exactly the non-index variants |
| MutatorSend.SendMutator.NormalDispatch | lib/mutant/mutator/node/send.rb:91-97 | appends the five rules' variants in source order |
| MutatorSend.SendMutator.EmitSelectorReplacement | lib/mutant/mutator/node/send.rb:105-109 | the loop appends the selector variants in table order |
| MutatorSend.SendMutator.EmitSelector | lib/mutant/mutator/node/send.rb:107 | appends the call with the replacement selector |
| MutatorSend.SendMutator.EmitNakedReceiver | lib/mutant/mutator/node/send.rb:117-119 | appends the naked-receiver variant, if any |
| MutatorSend.SendMutator.MutateArguments | lib/mutant/mutator/node/send.rb:127-133 | appends the zero-argument form, then for each index its child mutations and its deletion |
| MutatorSend.SendMutator.EmitType | lib/mutant/mutator/node/send.rb:128 | appends the call reduced to receiver and selector |
| MutatorSend.SendMutator.MutateChild | lib/mutant/mutator/node/send.rb:130 | appends the call with argument `i` replaced by each of its mutations |
| MutatorSend.SendMutator.DeleteChild | lib/mutant/mutator/node/send.rb:131 | appends the call without argument `i` |
| MutatorSend.SendMutator.EmitArgumentPropagation | lib/mutant/mutator/node/send.rb:141-144 | appends the propagated argument, if any |
| MutatorSend.SendMutator.MutateReceiver | lib/mutant/mutator/node/send.rb:152-158 | nothing without a receiver; else the implicit-self variant, then the receiver variants |
| MutatorSend.SendMutator.EmitReceiverMutations | lib/mutant/mutator/node/send.rb:155-157 | the loop appends the call with each non-nil receiver mutation |
| MutatorSend.SendMutator.EmitReceiver | lib/mutant/mutator/node/send.rb:167 | appends the call with another receiver |
| MutatorSend.SendMutator.EmitImplicitSelf | lib/mutant/mutator/node/send.rb:166-173 | appends the implicit-self variant, if any |
| Expressions.Syntax | lib/mutant/expression/namespace.rb:32-34 | `Foo*` for a recursive expression, the scope name for an exact one |
| Expressions.RecursionPattern | lib/mutant/expression/namespace.rb:19-23 | the union of three alternatives |
| Expressions.RecursionPatternMeaning | lib/mutant/expression/namespace.rb:19-23 | the pattern accepts exactly the scope name itself, names nested under it after `::`, and names followed by `.` or `#` |
| Expressions.MatchLength | lib/mutant/expression/namespace.rb:57-63 | the match length is 0 or the scope name's length, the syntax length less the `*` |
| Expressions.MatchLengthNonZeroIff | lib/mutant/expression/namespace.rb:57-63 | for a non-empty name, non-zero exactly for the name, its nested names and its methods |
| Expressions.NoMatchOfOwnSyntax | lib/mutant/expression/namespace.rb:57-63 | a recursive expression does not match its own syntax `Foo*` |
| Expressions.MatchesExactOfSameName | lib/mutant/expression/namespace.rb:93 | `Foo*` matches the exact expression `Foo` with the full length |
| Expressions.MatchStableUnderExtension | lib/mutant/expression/namespace.rb:21-22 | a match through `::`, `.` or `#` survives any extension of the other syntax |
| Expressions.MatchesNested | lib/mutant/expression/namespace.rb:21 | `Foo*` against `Foo::Bar` has length 3 |
| Expressions.RejectsUnrelated | lib/mutant/expression/namespace.rb:19-23 | `Foo*` against `Bar` has length 0 |
| Expressions.RejectsLongerName | lib/mutant/expression/namespace.rb:19-23 | `Foo*` does not match `FooBar` or `FooBar::Baz`: the boundary is required |
| MethodMatcher.BlacklistMeaning | lib/mutant/matcher/method.rb:10 | BLACKLIST matches exactly the paths that start with `kernel/` or contain `eval` anywhere |
| MethodMatcher.BlacklistedPaths | lib/mutant/matcher/method.rb:8-10 | `(eval)`, `lib/evaluator.rb` and `kernel/common/array.rb` are blacklisted |
| MethodMatcher.OrdinaryPathNotBlacklisted | lib/mutant/matcher/method.rb:8-10 | `lib/foo.rb` is not blacklisted |
| MethodMatcher.Skip | lib/mutant/matcher/method.rb:40-51 | skip exactly on a missing or blacklisted location or a block on the matched path, with exactly one warning when skipping and none otherwise |
| MethodMatcher.SubjectOf | lib/mutant/matcher/method.rb:123-127 | a subject exactly when the path is non-empty, built from its last node in the method's scope and source file |
| MethodMatcher.Each | lib/mutant/matcher/method.rb:22-30 | at most one subject, at most one warning, and never both |
| MethodMatcher.NilLocationSkips | lib/mutant/matcher/method.rb:42-44 | no source location: nothing yielded, the invalid-location warning |
| MethodMatcher.BlacklistedPathSkips | lib/mutant/matcher/method.rb:42-44 | a `kernel/` path or one containing `eval`: nothing yielded, the invalid-location warning |
| MethodMatcher.BlockOnPathSkips | lib/mutant/matcher/method.rb:45-47 | a block anywhere on the path: nothing yielded, the third-party warning |
| MethodMatcher.LocationCheckedFirst | lib/mutant/matcher/method.rb:42-47 | when the location is rejected, the matched path makes no difference |
| MethodMatcher.YieldsLastNode | lib/mutant/matcher/method.rb:25-26 | otherwise no warning, and the subject of the path's last node if the path is non-empty |
| Integrations.LookupIn | lib/mutant/integration.rb:31-33 | lookup succeeds exactly for a registered name, with its class; otherwise a key error for that name |
| Integrations.LookupAfterRegister | lib/mutant/integration.rb:43-45 | after registering a name, lookup returns the new class; other names are unaffected, so registering again overwrites |
| Integrations.Registry.constructor | lib/mutant/integration.rb:7 | the registry starts empty |
| Integrations.Registry.Register | lib/mutant/integration.rb:43-45 | register overwrites the entry for the name in place |
| Integrations.Registry.Lookup | lib/mutant/integration.rb:31-33 | lookup on the registry's current entries |
| Integrations.LoadIntegrations | lib/mutant/integration.rb:91 | after loading, the registry holds exactly `null` and `rspec`, which resolve to their classes, and every other name fails |
| Integrations.Setup | lib/mutant/integration.rb:54-56 | the base `setup` returns the receiver |
| Integrations.NullAllTests | lib/mutant/integration.rb:99-101 | the Null integration has no tests |
| Integrations.NullCall | lib/mutant/integration.rb:111-118 | passes, with the given tests, empty output and runtime 0, for every input |
| Environment.Isolate | lib/mutant/env.rb:65-69 | a completed isolation hands back the block's value; a failed one its error message |
| Environment.MutationTestsBlock | lib/mutant/env.rb:65-68 | inside the block the mutation is inserted before the integration is called, with the given tests |
| Environment.RunMutationTests | lib/mutant/env.rb:61-76 | on success the integration's result for the selector's tests; on isolation failure a failing result with those tests and the error message |
| Environment.Kill | lib/mutant/env.rb:40-46 | the result holds the given mutation unchanged and its test result |
| Environment.IsolationFailureFailsTheRun | lib/mutant/env.rb:69-75 | an isolation failure always yields `passed = false`, its message as output, and the selected tests |
| Environment.NullIntegrationNeverKills | lib/mutant/env.rb:65-68 | with the Null integration a completed run always passes |
| Rspec.Digits | lib/mutant/integration/rspec.rb:122 | the index is written as one or more decimal digits |
| Rspec.ParseDigitsInvertsDigits | lib/mutant/integration/rspec.rb:122 | the decimal digits written for an index read back as that index |
| Rspec.DigitsInjective | lib/mutant/integration/rspec.rb:122 | distinct indexes are written differently |
| Rspec.PrefixBefore | lib/mutant/integration/rspec.rb:23 | the longest prefix free of a separator is a prefix, has no separator, and ends at the end or a separator |
| Rspec.PrefixBeforeOf | lib/mutant/integration/rspec.rb:23 | a separator-free word followed by a separator or by nothing is that prefix |
| Rspec.TestIdDeterminesIndex | lib/mutant/integration/rspec.rb:13-19 | equal identifiers have equal indexes, whatever the locations and descriptions |
| Rspec.ExpressionCandidate | lib/mutant/integration/rspec.rb:23 | no candidate exactly for an empty or space-led description; otherwise the non-empty, maximal leading run of non-space characters |
| Rspec.ParseExpression | lib/mutant/integration/rspec.rb:135-142 | an explicit `mutant_expression` is parsed strictly; otherwise only a missing candidate fails |
| Rspec.CandidateIsFirstWord | lib/mutant/integration/rspec.rb:139 | the candidate is the description's first word |
| Rspec.DescriptionNamesTheExpression | lib/mutant/integration/rspec.rb:139-140 | without metadata, the first word's expression if it parses, otherwise ALL_EXPRESSION |
| Rspec.CandidateOfDescription | lib/mutant/integration/rspec.rb:23 | `Foo::Bar#baz returns nil` yields `Foo::Bar#baz` |
| Rspec.NoCandidateOfBlankStart | lib/mutant/integration/rspec.rb:139-140 | an empty or space-led description has no candidate |
| Rspec.ParseExample | lib/mutant/integration/rspec.rb:116-125 | the test has id `rspec:<index>:<location>/<description>` and the parsed expression, or the parse error |
| Rspec.HashFetch | lib/mutant/integration/rspec.rb:68 | a value comes back exactly for a present key, and it is stored under that key |
| Rspec.HashPut | lib/mutant/integration/rspec.rb:102 | storing a new key appends the pair; storing a present key keeps the size |
| Rspec.FetchAfterPut | lib/mutant/integration/rspec.rb:102 | the hash returns what was last stored under a key and leaves other keys alone |
| Rspec.TestsIndexOk | lib/mutant/integration/rspec.rb:100-104 | the index is built exactly when every example parses at its position; otherwise parsing raises |
| Rspec.TestsIndexShape | lib/mutant/integration/rspec.rb:100-104 | a built index holds one entry per example, in order, each under the test parsed from it at its position, with no entry overwritten |
| Rspec.TestsIndexErrorPersists | lib/mutant/integration/rspec.rb:100-104 | the first example that fails to parse decides the error |
| Rspec.AllTestsIndex | lib/mutant/integration/rspec.rb:100-104 | the loop computes the index the specification defines |
| Rspec.Keys | lib/mutant/integration/rspec.rb:88 | the keys, in order, one per entry |
| Rspec.AllTests | lib/mutant/integration/rspec.rb:87-89 | the index's keys: defined exactly when every example parses, and then test `i` is the one parsed from example `i` at position `i`, one per example |
| Rspec.AllTestsAreDistinct | lib/mutant/integration/rspec.rb:87-89 | one test per selected example, with pairwise distinct identifiers |
| Rspec.AllExamples | lib/mutant/integration/rspec.rb:150-154 | every selected example has `:mutant` truthy or absent |
| Rspec.AllExamplesMembers | lib/mutant/integration/rspec.rb:150-154 | an example is selected exactly when it belongs to some group and does not opt out; group order is kept |
| Rspec.FetchAll | lib/mutant/integration/rspec.rb:68 | every test's example in order, or a key error for a test the index lacks |
| Rspec.FilteredByMeaning | lib/mutant/integration/rspec.rb:164-168 | each group keeps exactly its examples satisfying the predicate, as a subsequence; no group is added or removed |
| Rspec.KeptExamplesBelongToTests | lib/mutant/integration/rspec.rb:68-69 | after filtering, every remaining example belongs to one of the requested tests |
| Rspec.World.constructor | lib/mutant/integration/rspec.rb:42 | the world's example groups and filtered examples |
| Rspec.RspecIntegration.constructor | lib/mutant/integration/rspec.rb:38-43 | a fresh output buffer over the world |
| Rspec.RspecIntegration.FilterExamples | lib/mutant/integration/rspec.rb:164-168 | every group's list is replaced in place by its filtered list |
| Rspec.RspecIntegration.Call | lib/mutant/integration/rspec.rb:67-79 | a missing test raises before anything changes; otherwise the world is narrowed to the tests' examples and `passed` holds exactly when the exit status is 0 |
| Bootstrap.ScopeName | lib/mutant/env/bootstrap.rb:90-95 | a `#name` raising a StandardError yields nil and exactly one warning; otherwise the name and no warning |
| Bootstrap.ExpressionOf | lib/mutant/env/bootstrap.rb:146-155 | raising a StandardError: none, one warning; nil or false: none, no warning; a non-String: none, one warning; a String: what `try_parse` returns |
| Bootstrap.WarnsIffMisbehaves | lib/mutant/env/bootstrap.rb:146-155 | a scope warns exactly when its name raises a StandardError or is a non-String, then exactly once and without expression |
| Bootstrap.MatchableMeaning | lib/mutant/env/bootstrap.rb:126-129 | matchable scopes are exactly the scopes with an expression, paired with it, and never more than the scopes |
| Bootstrap.ScopeWarningsBound | lib/mutant/env/bootstrap.rb:126-129 | at most one warning per scope, none when every scope behaves |
| Bootstrap.LexLeTotal | lib/mutant/env/bootstrap.rb:131 | string order compares any two syntaxes |
| Bootstrap.LexLeTransitive | lib/mutant/env/bootstrap.rb:131 | string order is transitive |
| Bootstrap.Insert | lib/mutant/env/bootstrap.rb:131 | insertion adds exactly the element |
| Bootstrap.InsertKeepsSorted | lib/mutant/env/bootstrap.rb:131 | insertion into a sorted list keeps it sorted |
| Bootstrap.SortBySyntax | lib/mutant/env/bootstrap.rb:131 | sorting permutes its input |
| Bootstrap.SortBySyntaxSorts | lib/mutant/env/bootstrap.rb:131 | the result is sorted by expression syntax and a permutation of the input |
| Bootstrap.Bootstrapper.constructor | lib/mutant/env/bootstrap.rb:35-39 | after initialisation the matchable scopes are the sorted matchable scopes and the warnings those of the scopes |
| Bootstrap.Bootstrapper.InitializeMatchableScopes | lib/mutant/env/bootstrap.rb:125-132 | the loop collects the matchable scopes and warnings in scope order, then sorts |
| Bootstrap.MutationLists | lib/mutant/env/bootstrap.rb:72 | each subject's mutations, in subject order |
| Bootstrap.EnvOf | lib/mutant/env/bootstrap.rb:62-74 | the environment carries the configuration, subjects and matchable scopes |
| Bootstrap.EnvMutations | lib/mutant/env/bootstrap.rb:62-74 | the mutation list concatenates the subjects' mutations in order; its length is the sum of theirs |
| Runner.FirstDone | lib/mutant/runner.rb:53-58 | the first done status: done, and no earlier one is |
| Runner.Progressed | lib/mutant/runner.rb:55 | projects the trace onto the statuses handed to `reporter.progress`, in trace order; there are no more of them than events |
| Runner.ProgressedMembers | lib/mutant/runner.rb:55 | every projected status was reported as progress, and every progress event's status is projected |
| Runner.ProgressedAppend | lib/mutant/runner.rb:55 | progress of a concatenation is the concatenation of progress |
| Runner.PollEventsStep | lib/mutant/runner.rb:53-58 | each poll adds its progress and, unless done, a sleep |
| Runner.ProgressedPollOne | lib/mutant/runner.rb:54-55 | each poll reports its status once |
| Runner.PollEventsProgress | lib/mutant/runner.rb:54-55 | every polled status is reported as progress, in poll order |
| Runner.PollEventsSleeps | lib/mutant/runner.rb:56-57 | one sleep per status that is not done, and no stop while polling |
| Runner.NotDoneBeforeFirstDone | lib/mutant/runner.rb:56 | before the first done status every status is not done |
| Runner.DriverEventsProgress | lib/mutant/runner.rb:50-63 | progress is reported for every status through the first done one, in poll order, and for no later one |
| Runner.DriverEventsSleeps | lib/mutant/runner.rb:50-63 | the runner sleeps once for each status before the first done one and not after it |
| Runner.DriverEventsStop | lib/mutant/runner.rb:50-63 | the driver is stopped exactly once, last, right after the progress of the first done status |
| Runner.MutationTestConfig | lib/mutant/runner.rb:71-79 | jobs from the configuration, the environment's mutations as source, and `kill` as processor |
| Runner.ProcessorKeepsMutation | lib/mutant/runner.rb:75-77 | the processor reports on the very mutation it is given |
| Runner.MutationRunner.constructor | lib/mutant/runner.rb:12-18 | start is reported first, then the driver runs, then the stored result is reported |
| Runner.MutationRunner.RunMutationAnalysis | lib/mutant/runner.rb:36-39 | the reporter receives exactly the value stored as result |
| Runner.MutationRunner.RunDriver | lib/mutant/runner.rb:50-63 | returns the first done status's payload, with the poll trace and one stop |

## Left out

- Reporter output, `$stderr` and `StringIO` are not modelled as I/O. Warnings and trace events are sequences of values. RSpec's written output is a parameter of `call`, appended to the integration's buffer.
- The parallel pool is left out because its point is concurrency. This covers `Parallel.async`, the actor environment, the source and the sink. Its driver is only a sequence of statuses.
- Runner.MutationRunner.RunDriver: a driver that never reports done is not modelled, because the loop would not terminate; the statuses must contain a done one.
- Fork isolation is an operating-system mechanism, so only its outcome, completed or failed with a message, is modelled.
- `Time.now` is a clock. Elapsed times are parameters, and the Null integration's runtime is the real 0.0.
- `Kernel.sleep` is not modelled as a delay; it appears only as a `Sleep` event.
- Several RSpec internals are left out because they belong to a foreign library with global state:
  - `RSpec::Core::Runner` and `run_specs`: their exit status is a parameter of `call`.
  - `ordered_example_groups` and `CLI_OPTIONS`.
  - `setup`, which sets up the RSpec runner.
  - `descendants`: the example groups are given already flattened with their descendants, in RSpec's order.
- `memoize` is left out: the model recomputes `all_tests_index` on each call. The examples do not change, so the result is the same.
- `ObjectSpace.each_object` and `infect` (`$LOAD_PATH`, `require`, building and setting up the integration) are runtime reflection. The scopes are an input.
- `Matcher::Compiler`, `cache.parse` and `AST.find_last_path` are not part of this model. The matched node path and the subjects are inputs.
- MutatorSend.SendMutator.Emit: the base mutator's filtering of emitted nodes is not part of this model, so emitting is a plain append.
- The other mutators are not part of this model: the child-node mutator, `Index::Assign`, `Binary` and `AttributeAssignment`. Their outputs are parameters.
- `AST::Meta::Send` and the `AST::Types` sets are not part of this model. Their predicates are booleans and their sets are parameters.
- The expression parser is not part of this model. It is a parameter that accepts or rejects a string. `Expression::Methods`, `Matcher::Filter` and `Matcher::Compiler::SubjectPrefix` are not part of this model either.
- Expressions.MatchLength: `ALL_EXPRESSION` has a nil scope name, modelled as the empty name (nil interpolates as ""). Where its pattern matches, the source's `scope_name.length` would raise on nil; the model returns 0.
- Bootstrap.ScopeName: `rescue => exception` catches only StandardError. A `#name` that raises any other exception, such as a ScriptError, aborts the bootstrap in the source. Such exceptions are not modelled: `Raises` stands for a StandardError.
- Rspec.ParseExpression: RSpec metadata is reduced to four fields (`:location`, `:full_description`, `:mutant`, `:mutant_expression`). An example's object identity is a number.
- Rspec.AllExamples: the `:mutant` flag is modelled as an optional boolean, so truthy values other than `true` are not distinguished.
- `each` without a block (`to_enum`) is plumbing and is not modelled.
- Bootstrap.SortBySyntax: Ruby's `sort_by` is not stable. The model sorts by insertion, and only sortedness and permutation are promised, so the order among equal syntaxes is the model's choice. Strings compare by character code, as Ruby's byte order does for ASCII names.
- `Env#warn`, `Bootstrap#warn` and the reporter's delay source are reduced to the warnings sequence and a configured real number.
- Environment.MutationTestsBlock: the integration's result is an input. The model records that the mutation is inserted before the integration is called, but the integration never sees the inserted mutation, so nothing ties its result to the mutation.
