/** Launching the searches and the channel they answer on (indexers.go). */
module Fanout {
  import opened Basics

  const MAX_QUERIES: nat := 6

  datatype Indexer = Indexer(name: string, kind: string, enabled: bool)

  datatype Job = Job(source: Indexer, query: string)

  /** Small indexers throttle, so they get only the first queries. */
  function QueriesFor(kind: string, queries: seq<string>): (r: seq<string>)
    ensures r <= queries
    ensures queries != [] ==> r != []
    ensures kind in ["eztv", "yts", "torrentio"] ==> |r| == Min(|queries|, 1)
    ensures kind in ["nyaa", "apibay", "animetosho"] ==> |r| == Min(|queries|, 3)
    ensures kind !in ["eztv", "yts", "torrentio", "nyaa", "apibay", "animetosho"] ==> r == queries
  {
    if kind in ["eztv", "yts", "torrentio"] then
      if |queries| > 1 then queries[..1] else queries
    else if kind in ["nyaa", "apibay", "animetosho"] then
      if |queries| > 3 then queries[..3] else queries
    else
      queries
  }

  function IsEnabled(): Indexer -> bool {
    (ix: Indexer) => ix.enabled
  }

  function Enabled(ixs: seq<Indexer>): seq<Indexer> {
    Filter(IsEnabled(), ixs)
  }

  function JobsOf(ix: Indexer, qs: seq<string>): seq<Job> {
    seq(|qs|, i requires 0 <= i < |qs| => Job(ix, qs[i]))
  }

  function Jobs(enabled: seq<Indexer>, queries: seq<string>): seq<Job> {
    if enabled == [] then []
    else
      var ix := enabled[|enabled| - 1];
      Jobs(enabled[..|enabled| - 1], queries) + JobsOf(ix, QueriesFor(ix.kind, queries))
  }

  /** How many jobs a source has to answer. */
  function JobsNamed(jobs: seq<Job>, name: string): nat {
    if jobs == [] then 0
    else JobsNamed(jobs[..|jobs| - 1], name) + (if jobs[|jobs| - 1].source.name == name then 1 else 0)
  }

  ghost predicate CountsJobs(launched: map<string, nat>, jobs: seq<Job>) {
    forall n :: JobsNamed(jobs, n) == if n in launched then launched[n] else 0
  }

  /** How many queries a source of this kind runs. */
  function Share(kind: string, queries: nat): nat {
    if kind in ["eztv", "yts", "torrentio"] then Min(queries, 1)
    else if kind in ["nyaa", "apibay", "animetosho"] then Min(queries, 3)
    else queries
  }

  lemma {:induction false} JobsConcat(a: seq<Indexer>, b: seq<Indexer>, queries: seq<string>)
    ensures Jobs(a + b, queries) == Jobs(a, queries) + Jobs(b, queries)
  {
    if b == [] {
      assert a + b == a;
    } else {
      var init, ix := b[..|b| - 1], b[|b| - 1];
      JobsConcat(a, init, queries);
      assert (a + b)[..|a + b| - 1] == a + init && (a + b)[|a + b| - 1] == ix;
      Reassociate(Jobs(a, queries), Jobs(init, queries), JobsOf(ix, QueriesFor(ix.kind, queries)));
    }
  }

  lemma Reassociate<T>(a: seq<T>, b: seq<T>, c: seq<T>)
    ensures (a + b) + c == a + (b + c)
  {
  }

  /** The jobs of two lists of sources are those of the one and then those of the other. */
  lemma JobsBySource(a: seq<Indexer>, b: seq<Indexer>, queries: seq<string>)
    ensures Jobs(Enabled(a + b), queries) == Jobs(Enabled(a), queries) + Jobs(Enabled(b), queries)
  {
    FilterConcat(IsEnabled(), a, b);
    JobsConcat(Enabled(a), Enabled(b), queries);
  }

  /** One source runs the first queries of its share, in order, if it is enabled, and none otherwise. */
  lemma OneSourceRuns(ix: Indexer, queries: seq<string>)
    ensures var mine := Jobs(Enabled([ix]), queries);
      && |mine| == (if ix.enabled then Share(ix.kind, |queries|) else 0)
      && forall k :: 0 <= k < |mine| ==> mine[k] == Job(ix, queries[k])
  {
    FilterOne(IsEnabled(), ix);
    assert [ix][..0] == [];
    assert ix.enabled ==> Jobs([ix], queries) == JobsOf(ix, QueriesFor(ix.kind, queries));
  }

  /** The places of the jobs launched under a name. */
  function Under(jobs: seq<Job>, name: string): set<nat> {
    set i: nat | i < |jobs| && jobs[i].source.name == name
  }

  /** The jobs counted for a source are those launched under its name. */
  lemma {:induction false} JobsAreCounted(jobs: seq<Job>, name: string)
    ensures JobsNamed(jobs, name) == |Under(jobs, name)|
  {
    var mine := Under(jobs, name);
    if jobs == [] {
      assert mine == {};
    } else {
      var n := |jobs| - 1;
      JobsAreCounted(jobs[..n], name);
      assert mine == Under(jobs[..n], name) + if jobs[n].source.name == name then {n} else {};
    }
  }

  datatype Outcome = EmptyQuery | NoIndexers | Launched(jobs: seq<Job>, perSource: map<string, nat>, capacity: nat)

  lemma EnabledNext(ixs: seq<Indexer>, i: nat)
    requires i < |ixs|
    ensures Enabled(ixs[..i + 1]) == Enabled(ixs[..i]) + (if ixs[i].enabled then [ixs[i]] else [])
  {
    assert ixs[..i + 1][..i] == ixs[..i];
  }

  lemma JobsNext(enabled: seq<Indexer>, queries: seq<string>, i: nat)
    requires i < |enabled|
    ensures Jobs(enabled[..i + 1], queries)
         == Jobs(enabled[..i], queries) + JobsOf(enabled[i], QueriesFor(enabled[i].kind, queries))
  {
    assert enabled[..i + 1][..i] == enabled[..i];
  }

  lemma OneMoreJob(done: seq<Job>, ix: Indexer, qs: seq<string>, j: nat, launched: map<string, nat>)
    requires j < |qs| && CountsJobs(launched, done + JobsOf(ix, qs[..j]))
    ensures done + JobsOf(ix, qs[..j + 1]) == done + JobsOf(ix, qs[..j]) + [Job(ix, qs[j])]
    ensures CountsJobs(launched[ix.name := (if ix.name in launched then launched[ix.name] else 0) + 1],
                       done + JobsOf(ix, qs[..j + 1]))
  {
    var jobs := done + JobsOf(ix, qs[..j]);
    var more := jobs + [Job(ix, qs[j])];
    assert done + JobsOf(ix, qs[..j + 1]) == more;
    assert more[..|more| - 1] == jobs;
  }

  /** The launch half of `searchAll`: one job per enabled source and query it is allowed. */
  method Launch(ixs: seq<Indexer>, asked: seq<string>) returns (o: Outcome)
    ensures asked == [] ==> o == EmptyQuery
    ensures asked != [] && Enabled(ixs) == [] ==> o == NoIndexers
    ensures asked != [] && Enabled(ixs) != [] ==>
      var queries := if |asked| > 6 then asked[..6] else asked;
      && o.Launched? && o.jobs == Jobs(Enabled(ixs), queries) && CountsJobs(o.perSource, o.jobs)
      && o.capacity == |Enabled(ixs)| * |queries|
  {
    if |asked| == 0 {
      return EmptyQuery;
    }
    var queries := asked;
    if |queries| > MAX_QUERIES {
      queries := queries[..MAX_QUERIES];
    }
    var enabled := [];
    for i := 0 to |ixs|
      invariant enabled == Enabled(ixs[..i])
    {
      EnabledNext(ixs, i);
      if !ixs[i].enabled {
        continue;
      }
      enabled := enabled + [ixs[i]];
    }
    assert ixs[..|ixs|] == ixs;
    if |enabled| == 0 {
      return NoIndexers;
    }
    var jobs, launched := [], map[];
    for i := 0 to |enabled|
      invariant jobs == Jobs(enabled[..i], queries) && CountsJobs(launched, jobs)
    {
      jobs, launched := LaunchOne(enabled[i], QueriesFor(enabled[i].kind, queries), jobs, launched);
      JobsNext(enabled, queries, i);
    }
    assert enabled[..|enabled|] == enabled;
    o := Launched(jobs, launched, |enabled| * |queries|);
  }

  method LaunchOne(ix: Indexer, qs: seq<string>, done: seq<Job>, launched0: map<string, nat>)
    returns (jobs: seq<Job>, launched: map<string, nat>)
    requires CountsJobs(launched0, done)
    ensures jobs == done + JobsOf(ix, qs) && CountsJobs(launched, jobs)
  {
    jobs, launched := done, launched0;
    assert done + JobsOf(ix, qs[..0]) == done;
    for j := 0 to |qs|
      invariant jobs == done + JobsOf(ix, qs[..j]) && CountsJobs(launched, jobs)
    {
      OneMoreJob(done, ix, qs, j, launched);
      launched := launched[ix.name := (if ix.name in launched then launched[ix.name] else 0) + 1];
      jobs := jobs + [Job(ix, qs[j])];
    }
    assert qs[..|qs|] == qs;
  }

  // ---------- the answer channel ----------

  lemma OneMoreTimes(n: nat, q: nat)
    ensures (n + 1) * q == n * q + q
  {
  }

  lemma JobsOfOne(enabled: seq<Indexer>, queries: seq<string>)
    requires enabled != []
    ensures |Jobs(enabled, queries)| <= |Jobs(enabled[..|enabled| - 1], queries)| + |queries|
  {
    var ix := enabled[|enabled| - 1];
    assert |QueriesFor(ix.kind, queries)| <= |queries|;
  }

  lemma {:induction false} CapacityCoversJobs(enabled: seq<Indexer>, queries: seq<string>)
    ensures |Jobs(enabled, queries)| <= |enabled| * |queries|
  {
    if enabled != [] {
      var n := |enabled| - 1;
      CapacityCoversJobs(enabled[..n], queries);
      OneMoreTimes(n, |queries|);
      JobsOfOne(enabled, queries);
    }
  }

  /** The searches still running, the answers waiting in the channel and those taken out of it. */
  datatype Channel = Channel(running: nat, buffered: nat, taken: nat)

  /** A finished search sends, which needs room; the drain takes an answer, and stops for good
      when it finds none. */
  ghost predicate ChannelStep(c: Channel, d: Channel, capacity: nat) {
    || (c.running > 0 && c.buffered < capacity && d == c.(running := c.running - 1, buffered := c.buffered + 1))
    || (c.buffered > 0 && d == c.(buffered := c.buffered - 1, taken := c.taken + 1))
  }

  ghost predicate ChannelRun(run: seq<Channel>, jobs: nat, capacity: nat) {
    && run != [] && run[0] == Channel(jobs, 0, 0)
    && forall i :: 0 <= i < |run| - 1 ==> ChannelStep(run[i], run[i + 1], capacity)
  }

  lemma {:induction false} AnswersAreConserved(run: seq<Channel>, jobs: nat, capacity: nat, i: nat)
    requires ChannelRun(run, jobs, capacity) && i < |run|
    ensures run[i].running + run[i].buffered + run[i].taken == jobs
  {
    if i > 0 {
      AnswersAreConserved(run, jobs, capacity, i - 1);
      assert ChannelStep(run[i - 1], run[i], capacity);
    }
  }

  /** No search ever waits to deliver its answer, however little the drain takes: a search that ends
      after the deadline still ends. And the drain can take whatever waits for it. */
  lemma NoSenderBlocks(enabled: seq<Indexer>, queries: seq<string>, run: seq<Channel>, i: nat)
    requires ChannelRun(run, |Jobs(enabled, queries)|, |enabled| * |queries|) && i < |run|
    ensures var c, capacity := run[i], |enabled| * |queries|;
      && (c.running > 0 ==> ChannelStep(c, Channel(c.running - 1, c.buffered + 1, c.taken), capacity))
      && (c.buffered > 0 ==> ChannelStep(c, Channel(c.running, c.buffered - 1, c.taken + 1), capacity))
      && c.buffered <= capacity
  {
    CapacityCoversJobs(enabled, queries);
    AnswersAreConserved(run, |Jobs(enabled, queries)|, |enabled| * |queries|, i);
  }
}
