/** The runner: reports the start, drives the parallel mutation analysis by
    polling its status until it is done, stops the driver and reports the
    final payload. */
module Runner {
  import opened Wrappers
  import opened Entities
  import opened Environment

  /** A status of the driver: whether the analysis is done, and its payload
      (the environment result so far). */
  datatype Status<P> = Status(done: bool, payload: P)

  /** The runner's calls on the reporter, the driver and the kernel, in the
      order they happen. */
  datatype Event<P> =
    | Start(env: Env)              // reporter.start(env)
    | Progress(status: Status<P>)  // reporter.progress(status)
    | Sleep(delay: real)           // Kernel.sleep(reporter.delay)
    | Stop                         // driver.stop
    | Report(result: P)            // reporter.report(result)

  /** A driver that reports done at some poll. */
  predicate EventuallyDone<P>(statuses: seq<Status<P>>)
  {
    exists i :: 0 <= i < |statuses| && statuses[i].done
  }

  /** The position of the first done status. */
  function FirstDone<P>(statuses: seq<Status<P>>): (k: nat)
    requires EventuallyDone(statuses)
    ensures k < |statuses| && statuses[k].done
    ensures forall j :: 0 <= j < k ==> !statuses[j].done
  {
    if statuses[0].done then 0
    else
      assert EventuallyDone(statuses[1..]) by {
        var i :| 0 <= i < |statuses| && statuses[i].done;
        assert statuses[1..][i - 1].done;
      }
      1 + FirstDone(statuses[1..])
  }

  /** The events of polling the given statuses in turn: progress for each,
      then a sleep unless it is done. */
  function PollEvents<P>(polled: seq<Status<P>>, delay: real): seq<Event<P>>
  {
    if polled == [] then []
    else
      var n := |polled| - 1;
      PollEvents(polled[..n], delay) + [Progress(polled[n])] + (if polled[n].done then [] else [Sleep(delay)])
  }

  /** The events of `run_driver`: polling up to and including the first done
      status, then stopping the driver. */
  function DriverEvents<P>(statuses: seq<Status<P>>, delay: real): seq<Event<P>>
    requires EventuallyDone(statuses)
  {
    PollEvents(statuses[..FirstDone(statuses) + 1], delay) + [Stop]
  }

  /** The statuses reported as progress, in order. */
  function Progressed<P>(events: seq<Event<P>>): (r: seq<Status<P>>)
    ensures |r| <= |events|
  {
    if events == [] then []
    else
      var n := |events| - 1;
      Progressed(events[..n]) + (if events[n].Progress? then [events[n].status] else [])
  }

  /** A status is among the progressed ones exactly when the trace reports
      it as progress. */
  lemma {:induction false} ProgressedMembers<P>(events: seq<Event<P>>)
    ensures forall i :: 0 <= i < |Progressed(events)| ==> Progress(Progressed(events)[i]) in events
    ensures forall j :: 0 <= j < |events| && events[j].Progress? ==> events[j].status in Progressed(events)
  {
    if events != [] {
      var n := |events| - 1;
      ProgressedMembers(events[..n]);
      assert events == events[..n] + [events[n]];
    }
  }

  function NotDoneCount<P>(polled: seq<Status<P>>): nat
  {
    if polled == [] then 0
    else NotDoneCount(polled[..|polled| - 1]) + (if polled[|polled| - 1].done then 0 else 1)
  }

  lemma {:induction false} ProgressedAppend<P>(a: seq<Event<P>>, b: seq<Event<P>>)
    ensures Progressed(a + b) == Progressed(a) + Progressed(b)
    decreases |b|
  {
    if b != [] {
      var n := |b| - 1;
      assert (a + b)[..|a + b| - 1] == a + b[..n];
      ProgressedAppend(a, b[..n]);
    } else {
      assert a + b == a;
    }
  }

  /** The events of polling one status. */
  function PollOne<P>(status: Status<P>, delay: real): seq<Event<P>>
  {
    [Progress(status)] + (if status.done then [] else [Sleep(delay)])
  }

  lemma PollEventsStep<P>(polled: seq<Status<P>>, delay: real)
    requires polled != []
    ensures PollEvents(polled, delay) == PollEvents(polled[..|polled| - 1], delay) + PollOne(polled[|polled| - 1], delay)
  {
  }

  lemma ProgressedPollOne<P>(status: Status<P>, delay: real)
    ensures Progressed(PollOne(status, delay)) == [status]
  {
    var tail := PollOne(status, delay);
    if !status.done {
      assert tail[..1] == [Progress(status)];
      assert Progressed(tail[..1]) == [status];
    } else {
      assert tail[..0] == [];
    }
  }

  /** Polling reports every polled status as progress, in poll order. */
  lemma {:induction false} PollEventsProgress<P>(polled: seq<Status<P>>, delay: real)
    ensures Progressed(PollEvents(polled, delay)) == polled
  {
    if polled != [] {
      var n := |polled| - 1;
      var before := PollEvents(polled[..n], delay);
      var last := PollOne(polled[n], delay);
      PollEventsProgress(polled[..n], delay);
      PollEventsStep(polled, delay);
      ProgressedAppend(before, last);
      ProgressedPollOne(polled[n], delay);
      calc {
        Progressed(PollEvents(polled, delay));
        Progressed(before + last);
        Progressed(before) + Progressed(last);
        polled[..n] + [polled[n]];
        polled;
      }
    }
  }

  /** Polling sleeps once for each status that is not done, and never stops
      the driver. */
  lemma {:induction false} PollEventsSleeps<P>(polled: seq<Status<P>>, delay: real)
    ensures multiset(PollEvents(polled, delay))[Sleep(delay)] == NotDoneCount(polled)
    ensures Stop !in PollEvents(polled, delay)
  {
    if polled != [] {
      var n := |polled| - 1;
      PollEventsSleeps(polled[..n], delay);
      PollEventsStep(polled, delay);
    }
  }

  /** Up to the first done status, every status but the last is not done. */
  lemma {:induction false} NotDoneBeforeFirstDone<P>(polled: seq<Status<P>>)
    requires forall j :: 0 <= j < |polled| ==> !polled[j].done
    ensures NotDoneCount(polled) == |polled|
  {
    if polled != [] {
      NotDoneBeforeFirstDone(polled[..|polled| - 1]);
    }
  }

  /** `run_driver`, as a trace: progress is reported for every status up to
      and including the first done one, in poll order. */
  lemma DriverEventsProgress<P>(statuses: seq<Status<P>>, delay: real)
    requires EventuallyDone(statuses)
    ensures Progressed(DriverEvents(statuses, delay)) == statuses[..FirstDone(statuses) + 1]
  {
    var polled := statuses[..FirstDone(statuses) + 1];
    PollEventsProgress(polled, delay);
    ProgressedAppend(PollEvents(polled, delay), [Stop]);
  }

  /** There is one sleep for each status before the first done one. */
  lemma DriverEventsSleeps<P>(statuses: seq<Status<P>>, delay: real)
    requires EventuallyDone(statuses)
    ensures multiset(DriverEvents(statuses, delay))[Sleep(delay)] == FirstDone(statuses)
  {
    var k := FirstDone(statuses);
    var polled := statuses[..k + 1];
    PollEventsSleeps(polled, delay);
    PollEventsStep(polled, delay);
    assert polled[..k] == statuses[..k];
    PollEventsSleeps(statuses[..k], delay);
    NotDoneBeforeFirstDone(statuses[..k]);
  }

  /** Polling that ends at a done status ends with its progress. */
  lemma PollEventsEndWithDone<P>(polled: seq<Status<P>>, delay: real)
    requires polled != [] && polled[|polled| - 1].done
    ensures var p := PollEvents(polled, delay);
      p != [] && p[|p| - 1] == Progress(polled[|polled| - 1])
  {
  }

  lemma StopAppendedOnce<P>(p: seq<Event<P>>)
    requires Stop !in p
    ensures multiset(p + [Stop])[Stop] == 1
  {
    assert multiset(p + [Stop]) == multiset(p) + multiset{Stop};
  }

  /** The driver is stopped exactly once, last, right after the progress of
      the first done status. */
  lemma DriverEventsStop<P>(statuses: seq<Status<P>>, delay: real)
    requires EventuallyDone(statuses)
    ensures var events := DriverEvents(statuses, delay);
      && multiset(events)[Stop] == 1 && events[|events| - 1] == Stop
      && events[|events| - 2] == Progress(statuses[FirstDone(statuses)])
  {
    var k := FirstDone(statuses);
    var polled := statuses[..k + 1];
    PollEventsSleeps(polled, delay);
    PollEventsEndWithDone(polled, delay);
    StopAppendedOnce(PollEvents(polled, delay));
  }

  /** `Parallel::Config` as `mutation_test_config` builds it. */
  datatype ParallelConfig = ParallelConfig(
    jobs: nat,
    source: seq<Mutation>,                  // Parallel::Source::Array over the mutations
    sinkEnv: Env,                           // Sink::Mutation.new(env)
    processor: Mutation -> MutationResult)  // env.method(:kill)

  /** `mutation_test_config`: the pool works on the environment's mutations
      in order, with the configured number of jobs, killing each mutation
      with `Env#kill`. Isolation outcomes and elapsed times are per
      mutation. */
  function MutationTestConfig(env: Env, selector: Subject -> seq<Test>, integrationCall: seq<Test> -> TestResult,
                              outcomes: Mutation -> IsolationOutcome, elapsed: Mutation -> real): (c: ParallelConfig)
    ensures c.jobs == env.config.jobs && c.source == env.mutations && c.sinkEnv == env
    ensures forall m :: c.processor(m) == Kill(m, selector, integrationCall, outcomes(m), elapsed(m))
  {
    ParallelConfig(env.config.jobs, env.mutations, env,
                   m => Kill(m, selector, integrationCall, outcomes(m), elapsed(m)))
  }

  /** Every job of the pool reports on the very mutation it was given. */
  lemma ProcessorKeepsMutation(env: Env, selector: Subject -> seq<Test>, integrationCall: seq<Test> -> TestResult,
                               outcomes: Mutation -> IsolationOutcome, elapsed: Mutation -> real, i: nat)
    requires i < |env.mutations|
    ensures var c := MutationTestConfig(env, selector, integrationCall, outcomes, elapsed);
      c.processor(c.source[i]).mutation == env.mutations[i]
  {
  }

  /** A runner. The analysis itself runs in the parallel pool, which the
      model sees only through the statuses its driver returns. */
  class MutationRunner<P> {
    const env: Env
    /** What the runner has done so far. */
    var trace: seq<Event<P>>
    /** `result`, set once the analysis has run. */
    var result: Option<P>

    /** `initialize`: report the start, then run the analysis. */
    constructor (env: Env, statuses: seq<Status<P>>)
      requires EventuallyDone(statuses)
      ensures this.env == env
      ensures result == Some(statuses[FirstDone(statuses)].payload)
      ensures trace == [Start(env)] + DriverEvents(statuses, env.config.delay) + [Report(result.value)]
    {
      this.env := env;
      trace := [];
      result := None;
      new;
      trace := [Start(env)];
      RunMutationAnalysis(statuses);
    }

    /** `run_mutation_analysis`: the reporter receives exactly the stored
        result. */
    method RunMutationAnalysis(statuses: seq<Status<P>>)
      requires EventuallyDone(statuses)
      modifies this
      ensures result == Some(statuses[FirstDone(statuses)].payload)
      ensures trace == old(trace) + DriverEvents(statuses, env.config.delay) + [Report(result.value)]
    {
      var payload := RunDriver(statuses);
      result := Some(payload);
      trace := trace + [Report(payload)];
    }

    /** `run_driver`: poll, report progress, stop when done, sleep otherwise;
        then stop the driver and return the last status's payload. */
    method RunDriver(statuses: seq<Status<P>>) returns (payload: P)
      requires EventuallyDone(statuses)
      modifies this
      ensures payload == statuses[FirstDone(statuses)].payload
      ensures trace == old(trace) + DriverEvents(statuses, env.config.delay)
      ensures result == old(result)
    {
      var delay := env.config.delay;
      ghost var k := FirstDone(statuses);
      var i := 0;
      var status := statuses[0];
      while true
        invariant 0 <= i <= k
        invariant trace == old(trace) + PollEvents(statuses[..i], delay)
        invariant result == old(result)
        decreases k - i
      {
        status := statuses[i];
        assert statuses[..i + 1][..i] == statuses[..i];
        trace := trace + [Progress(status)];
        if status.done {
          break;
        }
        trace := trace + [Sleep(delay)];
        i := i + 1;
      }
      trace := trace + [Stop];
      payload := status.payload;
    }
  }
}
