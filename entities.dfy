/** The records the engine passes between its parts: scopes, subjects,
    mutations, tests and test results. */
module Entities {
  import opened Wrappers
  import opened Ast
  import opened Expressions

  /** A Ruby value as far as the engine inspects it: nil, false, an instance
      of String exactly, or anything else (known by its `inspect`). */
  datatype RubyValue = Nil | False | Str(s: string) | OtherValue(inspect: string)

  /** What calling `#name` on a scope does: raise a StandardError (with the
      exception's `inspect`) or return a value. Exceptions outside
      StandardError, which `rescue =>` does not catch and which abort the
      bootstrap, are not modelled. */
  datatype NameCall = Raises(exceptionInspect: string) | Returns(value: RubyValue)

  /** A class or module object of the program under test. */
  datatype Scope = Scope(className: string, inspect: string, name: NameCall)

  /** `Matcher::Scope`: a scope paired with the expression naming it. */
  datatype MatchableScope = MatchableScope(scope: Scope, expression: Expression)

  /** `Context::Scope`: where a subject lives. */
  datatype Context = Context(scope: Scope, sourcePath: string)

  /** A subject: one method body with its context. */
  datatype Subject = Subject(context: Context, node: Node)

  /** A mutation: a subject and one replacement node. */
  datatype Mutation = Mutation(subject: Subject, node: Node)

  /** A test: an identifier and the expression naming what it covers. */
  datatype Test = Test(id: string, expression: Expression)

  /** `Result::Test`; the runtime is an elapsed wall-clock time. */
  datatype TestResult = TestResult(tests: seq<Test>, output: string, runtime: real, passed: bool)

  /** `Result::Mutation` */
  datatype MutationResult = MutationResult(mutation: Mutation, testResult: TestResult)
}
