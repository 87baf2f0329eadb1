/** The environment's kill step: run the tests selected for a mutation's
    subject against the mutated program, inside the isolation boundary, and
    turn an isolation failure into a failing test result. */
module Environment {
  import opened Wrappers
  import opened Entities
  import opened Integrations

  /** The configuration fields the core reads. */
  datatype Config = Config(jobs: nat, delay: real)

  /** `Env`: what bootstrap assembles for a run. */
  datatype Env = Env(config: Config, subjects: seq<Subject>, matchableScopes: seq<MatchableScope>, mutations: seq<Mutation>)

  /** The steps the isolated child performs. */
  datatype Action = Insert(mutation: Mutation) | IntegrationCall(tests: seq<Test>)

  /** A unit of work handed to the isolation boundary: the steps it performs
      and the value it returns. */
  datatype Block = Block(actions: seq<Action>, value: TestResult)

  /** How the isolation boundary ends: the child completed and handed back
      the block's value, or it raised `Isolation::Error` with a message. */
  datatype IsolationOutcome = Completes | Fails(message: string)

  /** `config.isolation.call { ... }` */
  function Isolate(outcome: IsolationOutcome, block: Block): (r: Result<TestResult, string>)
    ensures outcome.Completes? ==> r == Ok(block.value)
    ensures outcome.Fails? ==> r == Err(outcome.message)
  {
    match outcome
    case Completes => Ok(block.value)
    case Fails(message) => Err(message)
  }

  /** The block of `run_mutation_tests`: insert the mutation, then call the
      integration with the tests; its value is what the integration returns. */
  function MutationTestsBlock(m: Mutation, tests: seq<Test>, integrationCall: seq<Test> -> TestResult): (b: Block)
    ensures |b.actions| == 2 && b.actions[0] == Insert(m) && b.actions[1] == IntegrationCall(tests)
    ensures b.value == integrationCall(tests)
  {
    Block([Insert(m), IntegrationCall(tests)], integrationCall(tests))
  }

  /** `run_mutation_tests`: the selector picks the tests for the mutation's
      subject; the result is the integration's, or, when isolation fails, a
      failing result carrying the error message. `elapsed` is the time the
      attempt took. */
  function RunMutationTests(m: Mutation, selector: Subject -> seq<Test>, integrationCall: seq<Test> -> TestResult,
                            outcome: IsolationOutcome, elapsed: real): (r: TestResult)
    ensures outcome.Completes? ==> r == integrationCall(selector(m.subject))
    ensures outcome.Fails? ==> r == TestResult(selector(m.subject), outcome.message, elapsed, false)
  {
    var tests := selector(m.subject);
    match Isolate(outcome, MutationTestsBlock(m, tests, integrationCall))
    case Ok(result) => result
    case Err(message) => TestResult(tests, message, elapsed, false)
  }

  /** `kill`: the mutation, unchanged, with its test result. */
  function Kill(m: Mutation, selector: Subject -> seq<Test>, integrationCall: seq<Test> -> TestResult,
                outcome: IsolationOutcome, elapsed: real): (r: MutationResult)
    ensures r.mutation == m
    ensures r.testResult == RunMutationTests(m, selector, integrationCall, outcome, elapsed)
  {
    MutationResult(m, RunMutationTests(m, selector, integrationCall, outcome, elapsed))
  }

  /** An isolation failure always counts as a failed test run, so the
      mutation is reported as killed and the run goes on. */
  lemma IsolationFailureFailsTheRun(m: Mutation, selector: Subject -> seq<Test>, integrationCall: seq<Test> -> TestResult,
                                    message: string, elapsed: real)
    ensures var r := Kill(m, selector, integrationCall, Fails(message), elapsed);
      !r.testResult.passed && r.testResult.output == message && r.testResult.tests == selector(m.subject)
  {
  }

  /** The Null integration never kills a mutation: when the child completes,
      the run passes, with the selected tests and no output. */
  lemma NullIntegrationNeverKills(m: Mutation, selector: Subject -> seq<Test>, elapsed: real)
    ensures var r := Kill(m, selector, NullCall, Completes, elapsed);
      r.testResult.passed && r.testResult.output == "" && r.testResult.tests == selector(m.subject)
  {
  }
}
