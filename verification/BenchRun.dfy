/** The run as a whole: the quota split across publishers and the joined results. */
module BenchRun {
  import opened Mqtt
  import opened PublisherModel
  import opened PublisherTheorems
  import opened LatencyStats

  datatype Stop = CountLimit(count: nat) | DurationLimit | CountWithin(count: nat)

  /** The remainder of an uneven split goes to the first publishers. */
  function QuotaFor(stop: Stop, publishers: nat, index: nat): Option<nat>
    requires publishers > 0
  {
    if stop.DurationLimit? then None
    else Some(stop.count / publishers + Bit(index < stop.count % publishers))
  }

  function QuotaSum(stop: Stop, publishers: nat, upTo: nat): nat
    requires publishers > 0 && !stop.DurationLimit?
  {
    if upTo == 0 then 0 else QuotaSum(stop, publishers, upTo - 1) + QuotaFor(stop, publishers, upTo - 1).value
  }

  lemma {:induction false} QuotaPrefix(stop: Stop, publishers: nat, upTo: nat)
    requires publishers > 0 && !stop.DurationLimit?
    ensures QuotaSum(stop, publishers, upTo)
            == upTo * (stop.count / publishers) + Min(upTo, stop.count % publishers)
    decreases upTo
  {
    if upTo > 0 {
      QuotaPrefix(stop, publishers, upTo - 1);
      OneShareMore(upTo, stop.count / publishers, stop.count % publishers);
    }
  }

  lemma OneShareMore(n: nat, q: nat, r: nat)
    requires n > 0
    ensures (n - 1) * q + Min(n - 1, r) + (q + Bit(n - 1 < r)) == n * q + Min(n, r)
  {
  }

  /** The quotas add up to the count, never increase and differ by at most one. */
  lemma QuotaPartition(stop: Stop, publishers: nat)
    requires publishers > 0 && !stop.DurationLimit?
    ensures QuotaSum(stop, publishers, publishers) == stop.count
    ensures forall i: nat, j: nat :: i <= j ==>
              QuotaFor(stop, publishers, j).value <= QuotaFor(stop, publishers, i).value
              <= QuotaFor(stop, publishers, j).value + 1
  {
    QuotaPrefix(stop, publishers, publishers);
    DividesExactly(stop.count, publishers);
  }

  lemma DividesExactly(count: nat, publishers: nat)
    requires publishers > 0
    ensures publishers * (count / publishers) + Min(publishers, count % publishers) == count
  {
  }

  function TotalPublished(states: seq<State>): nat {
    if states == [] then 0 else TotalPublished(states[..|states| - 1]) + states[|states| - 1].counters.published
  }

  /** Each publisher runs with its own share of the count, however it is paced
      and whatever its broker does. */
  ghost predicate Split(stop: Stop, publishers: nat, configs: seq<Config>, states: seq<State>)
    requires publishers > 0
  {
    && |configs| == |states| <= publishers
    && forall i :: 0 <= i < |states| ==>
         configs[i].quota == QuotaFor(stop, publishers, i) && Reachable(configs[i], states[i])
  }

  lemma {:induction false} PublishedWithinQuotas(stop: Stop, publishers: nat, configs: seq<Config>, states: seq<State>)
    requires publishers > 0 && !stop.DurationLimit? && Split(stop, publishers, configs, states)
    ensures TotalPublished(states) <= QuotaSum(stop, publishers, |states|)
    ensures AllMet(configs, states) ==> TotalPublished(states) == QuotaSum(stop, publishers, |states|)
    decreases |states|
  {
    if states != [] {
      var n := |states| - 1;
      SplitPrefix(stop, publishers, configs, states);
      PublishedWithinQuotas(stop, publishers, configs[..n], states[..n]);
      QuotaRespected(configs[n], states[n]);
    }
  }

  lemma SplitPrefix(stop: Stop, publishers: nat, configs: seq<Config>, states: seq<State>)
    requires publishers > 0 && states != [] && Split(stop, publishers, configs, states)
    ensures var n := |states| - 1;
            && Split(stop, publishers, configs[..n], states[..n])
            && configs[n].quota == QuotaFor(stop, publishers, n) && Reachable(configs[n], states[n])
            && (AllMet(configs, states) ==> AllMet(configs[..n], states[..n]) && QuotaMet(configs[n], states[n].sent))
  {
  }

  /** Every publisher ended because its quota was met. */
  predicate AllMet(configs: seq<Config>, states: seq<State>)
    requires |configs| == |states|
  {
    forall i :: 0 <= i < |states| ==> QuotaMet(configs[i], states[i].sent)
  }

  /** In every run the publishers together send at most the requested count, and
      exactly it when each of them ends because its quota is met. */
  lemma RunSendsTheCount(stop: Stop, configs: seq<Config>, states: seq<State>)
    requires |configs| > 0 && !stop.DurationLimit? && Split(stop, |configs|, configs, states)
    ensures TotalPublished(states) <= stop.count
    ensures AllMet(configs, states) ==> TotalPublished(states) == stop.count
  {
    PublishedWithinQuotas(stop, |configs|, configs, states);
    QuotaPartition(stop, |configs|);
  }

  /** Only a count limits what a publisher sends; a duration does not. */
  lemma QuotaOnlyForCounts(stop: Stop, publishers: nat, index: nat)
    requires publishers > 0
    ensures QuotaFor(stop, publishers, index) == None <==> stop == DurationLimit
  {
  }

  // ---- joining the tasks ----

  /** How a task ended: with its samples, with an error of its own, or in a panic
      the runtime describes. */
  datatype Task = Finished(samples: seq<U64>) | Failed(error: string) | Panicked(cause: string)

  function Merged(tasks: seq<Task>): seq<U64> {
    if tasks == [] then []
    else Merged(tasks[..|tasks| - 1]) + (if tasks[|tasks| - 1].Finished? then tasks[|tasks| - 1].samples else [])
  }

  /** Samples the finished tasks hold together: how many, and how often each value. */
  function HeldCount(tasks: seq<Task>): nat {
    if tasks == [] then 0 else (if tasks[0].Finished? then |tasks[0].samples| else 0) + HeldCount(tasks[1..])
  }

  function Held(tasks: seq<Task>): multiset<U64> {
    if tasks == [] then multiset{}
    else (if tasks[0].Finished? then multiset(tasks[0].samples) else multiset{}) + Held(tasks[1..])
  }

  lemma {:induction false} HeldSnoc(tasks: seq<Task>, t: Task)
    ensures HeldCount(tasks + [t]) == HeldCount(tasks) + (if t.Finished? then |t.samples| else 0)
    ensures Held(tasks + [t]) == Held(tasks) + (if t.Finished? then multiset(t.samples) else multiset{})
    decreases |tasks|
  {
    if tasks == [] {
      assert (tasks + [t])[1..] == [];
    } else {
      assert (tasks + [t])[1..] == tasks[1..] + [t];
      HeldSnoc(tasks[1..], t);
    }
  }

  /** Nothing is lost or invented by the merge, and the summary of the run is the
      summary of everything the finished tasks recorded, in any order. */
  lemma {:induction false} MergedHoldsEverything(tasks: seq<Task>)
    ensures |Merged(tasks)| == HeldCount(tasks) && multiset(Merged(tasks)) == Held(tasks)
    decreases |tasks|
  {
    if tasks != [] {
      var n := |tasks| - 1;
      MergedHoldsEverything(tasks[..n]);
      HeldSnoc(tasks[..n], tasks[n]);
      assert tasks == tasks[..n] + [tasks[n]];
    }
  }

  lemma RunSummary(tasks: seq<Task>, samples: seq<U64>)
    requires multiset(samples) == Held(tasks)
    ensures SummaryOf(Merged(tasks)) == SummaryOf(samples)
  {
    MergedHoldsEverything(tasks);
    SummaryDependsOnMultiset(Merged(tasks), samples);
  }

  /** The report's entry for one task: None if it finished, else why it did not. */
  predicate ReportedAs(t: Task, entry: Option<string>) {
    && (entry == None <==> t.Finished?)
    && (t.Failed? ==> entry == Some(t.error))
    && (t.Panicked? ==> entry == Some("task panicked: " + t.cause))
  }

  /** Every finished task's samples are merged, a failed or panicking one neither
      stops the join nor contributes, and each task has its own result. */
  method JoinTasks(tasks: seq<Task>) returns (merged: seq<U64>, results: seq<Option<string>>)
    ensures merged == Merged(tasks) && |merged| == HeldCount(tasks) && multiset(merged) == Held(tasks)
    ensures |results| == |tasks| && forall i :: 0 <= i < |tasks| ==> ReportedAs(tasks[i], results[i])
  {
    merged, results := [], [];
    for k := 0 to |tasks|
      invariant merged == Merged(tasks[..k])
      invariant |results| == k && forall i :: 0 <= i < k ==> ReportedAs(tasks[i], results[i])
    {
      assert tasks[..k + 1][..k] == tasks[..k];
      match tasks[k]
      case Finished(samples) =>
        merged := merged + samples;
        results := results + [None];
      case Failed(error) =>
        results := results + [Some(error)];
      case Panicked(cause) =>
        results := results + [Some("task panicked: " + cause)];
    }
    assert tasks[..|tasks|] == tasks;
    MergedHoldsEverything(tasks);
  }
}
