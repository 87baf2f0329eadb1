/** Test-framework integrations: the name registry and the Null integration
    used for dry runs. */
module Integrations {
  import opened Wrappers
  import opened Entities

  /** The integration classes that register themselves. */
  datatype IntegrationClass = NullIntegration | RspecIntegration

  /** An integration instance of one of those classes. */
  datatype Integration = Integration(cls: IntegrationClass)

  /** The error `Hash#fetch` raises for a missing key. */
  datatype KeyError = KeyError(key: string)

  /** `REGISTRY.fetch(name)` on the registry's contents. */
  function LookupIn(registry: map<string, IntegrationClass>, name: string): (r: Result<IntegrationClass, KeyError>)
    ensures r.Ok? <==> name in registry
    ensures r.Ok? ==> r.value == registry[name]
    ensures r.Err? ==> r.error == KeyError(name)
  {
    if name in registry then Ok(registry[name]) else Err(KeyError(name))
  }

  /** Registering is the only way in, and it overwrites: after registering
      `name`, looking it up gives the class just registered, and every other
      name looks up as before. */
  lemma LookupAfterRegister(registry: map<string, IntegrationClass>, name: string, cls: IntegrationClass, other: string)
    ensures LookupIn(registry[name := cls], name) == Ok(cls)
    ensures other != name ==> LookupIn(registry[name := cls], other) == LookupIn(registry, other)
  {
  }

  /** `REGISTRY`, the process-wide hash from names to integration classes. */
  class Registry {
    var entries: map<string, IntegrationClass>

    constructor ()
      ensures entries == map[]
    {
      entries := map[];
    }

    /** `Integration.register(name)`, called by class `cls`. */
    method Register(name: string, cls: IntegrationClass)
      modifies this
      ensures entries == old(entries)[name := cls]
    {
      entries := entries[name := cls];
    }

    /** `Integration.lookup(name)` */
    function Lookup(name: string): (r: Result<IntegrationClass, KeyError>)
      reads this
      ensures r.Ok? <==> name in entries
      ensures r.Ok? ==> r.value == entries[name]
    {
      LookupIn(entries, name)
    }
  }

  /** Loading the two integration files: Null registers as `null`, Rspec as
      `rspec`. */
  method LoadIntegrations() returns (registry: Registry)
    ensures fresh(registry)
    ensures registry.Lookup("null") == Ok(NullIntegration)
    ensures registry.Lookup("rspec") == Ok(RspecIntegration)
    ensures registry.entries == map["null" := NullIntegration, "rspec" := RspecIntegration]
    ensures forall n :: n != "null" && n != "rspec" ==> registry.Lookup(n).Err?
  {
    registry := new Registry();
    registry.Register("null", NullIntegration);
    registry.Register("rspec", RspecIntegration);
  }

  /** `Integration#setup` of the base class: the integration itself. */
  function Setup(i: Integration): (r: Integration)
    ensures r == i
  {
    i
  }

  /** `Null#all_tests`: there are no tests. */
  function NullAllTests(): (r: seq<Test>)
    ensures |r| == 0
  {
    []
  }

  /** `Null#call`: every test run passes, with no output and no time spent,
      and reports exactly the tests it was given. */
  function NullCall(tests: seq<Test>): (r: TestResult)
    ensures r.passed && r.output == "" && r.runtime == 0.0 && r.tests == tests
  {
    TestResult(tests, "", 0.0, true)
  }
}
