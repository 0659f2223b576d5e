/** Dropping a torrent, lock section by lock section (engine.go, cache.go). `EngineState` takes every
    eviction, reap and sweep as one step, and fetching a record and counting a reader as another; here
    they come apart, as they do in `evictOldest`, `reapIdle`, `sweepCache` and `handlePlay`. */
module DropRace {
  import AddRace

  /** A play and the record it has fetched; records are numbered as they are made. */
  datatype Play = Play(ih: string, record: nat)

  /** Plays that have fetched their record, plays that count as its readers, reaps that have fetched a
      record and not looked at it yet, and the evictions, reaps and sweeps under way. */
  datatype State = State(act: map<string, nat>, made: nat, loaded: set<string>, fetched: map<nat, Play>,
                         reading: map<nat, Play>, held: map<nat, Play>, jobs: map<nat, AddRace.Job>)

  const START := State(map[], 0, {}, map[], map[], map[], map[])

  /** As in `AddRace`, `took` is whether a drop took a torrent from the client. */
  datatype Event =
    | Load(ih: string)
    | Access(ih: string)
    | Fetch(play: nat, ih: string)
    | Count(play: nat)
    | End(play: nat)
    | EvictRecord(job: nat, ih: string)
    | EvictDrop(job: nat, took: bool)
    | Decide(job: nat, ih: string)   // a sweep looks at the readers of the filed record
    | Hold(job: nat, ih: string)     // a reap fetches the record,
    | DecideHeld(job: nat)           // and looks at the readers of that one
    | DropTorrent(job: nat, took: bool)
    | DeleteRecord(job: nat)
    | GiveUp(job: nat)

  /** Nobody counts as a reader of this record. */
  ghost predicate NobodyReads(s: State, q: Play) {
    forall p {:trigger s.reading[p]} :: p in s.reading ==> s.reading[p] != q
  }

  /** Nobody counts as a reader of the record filed for the infohash. */
  ghost predicate Unread(s: State, ih: string) {
    ih in s.act ==> NobodyReads(s, Play(ih, s.act[ih]))
  }

  predicate JobAt(s: State, job: nat, stage: AddRace.Stage) {
    job in s.jobs && s.jobs[job].stage == stage
  }

  /** An eviction looks for readers and deletes the record in one lock section, and drops the torrent
      after it; a reap or a sweep looks, drops, and deletes the record last, or gives up before that. The
      record a reap looks at need not be the filed one any more. */
  ghost predicate Possible(s: State, e: Event) {
    match e
    case Load(ih) => true
    case Access(ih) => true
    case Fetch(p, ih) => p !in s.fetched && p !in s.reading
    case Count(p) => p in s.fetched
    case End(p) => p in s.reading
    case EvictRecord(j, ih) => j !in s.jobs && ih in s.act && Unread(s, ih)
    case EvictDrop(j, took) => JobAt(s, j, AddRace.Evicted)
    case Decide(j, ih) => j !in s.jobs && Unread(s, ih)
    case Hold(j, ih) => j !in s.held
    case DecideHeld(j) => j in s.held && j !in s.jobs && NobodyReads(s, s.held[j])
    case DropTorrent(j, took) => JobAt(s, j, AddRace.Decided)
    case DeleteRecord(j) => JobAt(s, j, AddRace.Dropped)
    case GiveUp(j) => JobAt(s, j, AddRace.Dropped)
  }

  function Filed(s: State, ih: string): State {
    if ih in s.act then s else s.(act := s.act[ih := s.made], made := s.made + 1)
  }

  function Taken(s: State, ih: string, took: bool): State {
    if took then s.(loaded := s.loaded - {ih}) else s
  }

  function WithJob(s: State, j: nat, ih: string, stage: AddRace.Stage): State {
    s.(jobs := s.jobs[j := AddRace.Job(ih, stage)])
  }

  function WithoutJob(s: State, j: nat): State {
    s.(jobs := s.jobs - {j})
  }

  function Next(s: State, e: Event): State
    requires Possible(s, e)
  {
    match e
    case Load(ih) => s.(loaded := s.loaded + {ih})
    case Access(ih) => Filed(s, ih)
    case Fetch(p, ih) =>
      var t := Filed(s, ih);
      t.(fetched := t.fetched[p := Play(ih, t.act[ih])])
    case Count(p) => s.(fetched := s.fetched - {p}, reading := s.reading[p := s.fetched[p]])
    case End(p) => s.(reading := s.reading - {p})
    case EvictRecord(j, ih) => WithJob(s, j, ih, AddRace.Evicted).(act := s.act - {ih})
    case EvictDrop(j, took) => WithoutJob(Taken(s, s.jobs[j].ih, took), j)
    case Decide(j, ih) => WithJob(s, j, ih, AddRace.Decided)
    case Hold(j, ih) =>
      var t := Filed(s, ih);
      t.(held := t.held[j := Play(ih, t.act[ih])])
    case DecideHeld(j) => WithJob(s, j, s.held[j].ih, AddRace.Decided).(held := s.held - {j})
    case DropTorrent(j, took) => WithJob(Taken(s, s.jobs[j].ih, took), j, s.jobs[j].ih, AddRace.Dropped)
    case DeleteRecord(j) => WithoutJob(s, j).(act := s.act - {s.jobs[j].ih})
    case GiveUp(j) => WithoutJob(s, j)
  }

  /** A play that ends reads no more, and a job that is done or given up is over; giving up and deciding
      change neither records nor torrents. */
  lemma StepsEnd(s: State, e: Event, t: State)
    requires Stepped(s, e, t)
    ensures e.End? ==> t.reading == s.reading - {e.play} && t.act == s.act && t.loaded == s.loaded
    ensures e.EvictDrop? || e.DeleteRecord? || e.GiveUp? ==> e.job !in t.jobs
    ensures e.GiveUp? || e.Decide? || e.DecideHeld? ==> t.act == s.act && t.loaded == s.loaded
    ensures e.DecideHeld? ==>
      e.job !in t.held && t.jobs == s.jobs[e.job := AddRace.Job(s.held[e.job].ih, AddRace.Decided)]
  {
  }

  ghost predicate Stepped(s: State, e: Event, t: State) {
    Possible(s, e) && t == Next(s, e)
  }

  ghost predicate Steps(run: seq<State>, events: seq<Event>) {
    && |run| == |events| + 1
    && forall i :: 0 <= i < |events| ==> Stepped(run[i], events[i], run[i + 1])
  }

  ghost predicate IsRun(run: seq<State>, events: seq<Event>) {
    Steps(run, events) && run[0] == START
  }

  // ---------- when a play keeps its torrent ----------

  /** The play's torrent is loaded, and its record is the one filed. */
  predicate Served(s: State, q: Play) {
    q.ih in s.loaded && q.ih in s.act && s.act[q.ih] == q.record
  }

  ghost predicate AllServed(s: State) {
    forall p {:trigger s.reading[p]} :: p in s.reading ==> Served(s, s.reading[p])
  }

  predicate IsRead(s: State, ih: string) {
    exists p :: p in s.reading && s.reading[p].ih == ih
  }

  /** No drop takes, and no deletion ends, what somebody is reading; and a play that counts itself finds
      its torrent and its record as it left them. */
  predicate LooksAgain(s: State, e: Event) {
    match e
    case EvictDrop(j, took) => took && j in s.jobs ==> !IsRead(s, s.jobs[j].ih)
    case DropTorrent(j, took) => took && j in s.jobs ==> !IsRead(s, s.jobs[j].ih)
    case DeleteRecord(j) => j in s.jobs ==> !IsRead(s, s.jobs[j].ih)
    case Count(p) => p in s.fetched ==> Served(s, s.fetched[p])
    case _ => true
  }

  lemma TakingFromReader(s: State, t: State, ih: string)
    requires AllServed(s) && t.reading == s.reading
    requires (t.act == s.act && t.loaded == s.loaded - {ih}) || (t.act == s.act - {ih} && t.loaded == s.loaded)
    ensures AllServed(t) <==> !IsRead(s, ih)
  {
    if p :| p in s.reading && s.reading[p].ih == ih {
      assert !Served(t, t.reading[p]);
    }
  }

  lemma ServedStep(s: State, e: Event, t: State)
    requires Stepped(s, e, t) && AllServed(s)
    ensures AllServed(t) <==> LooksAgain(s, e)
  {
    match e
    case Count(p) => assert t.reading[p] == s.fetched[p];
    case EvictDrop(j, took) =>
      if took {
        TakingFromReader(s, t, s.jobs[j].ih);
      }
    case DropTorrent(j, took) =>
      if took {
        TakingFromReader(s, t, s.jobs[j].ih);
      }
    case DeleteRecord(j) => TakingFromReader(s, t, s.jobs[j].ih);
    case _ =>
  }

  lemma {:induction false} ServedAlong(run: seq<State>, events: seq<Event>, i: nat)
    requires IsRun(run, events) && i < |run|
    requires forall m :: 0 <= m < i ==> LooksAgain(run[m], events[m])
    ensures AllServed(run[i])
  {
    if i > 0 {
      ServedAlong(run, events, i - 1);
      assert Stepped(run[i - 1], events[i - 1], run[i]);
      ServedStep(run[i - 1], events[i - 1], run[i]);
    }
  }

  /** Throughout a run every reader keeps its torrent and its record exactly when the second half of no
      eviction, reap or sweep finds a reader, and every play still finds both when it counts itself. */
  lemma ReadersKeepTheirTorrentIff(run: seq<State>, events: seq<Event>)
    requires IsRun(run, events)
    ensures (forall i :: 0 <= i < |run| ==> AllServed(run[i]))
       <==> (forall i :: 0 <= i < |events| ==> LooksAgain(run[i], events[i]))
  {
    if forall i :: 0 <= i < |run| ==> AllServed(run[i]) {
      forall i | 0 <= i < |events| ensures LooksAgain(run[i], events[i]) {
        assert Stepped(run[i], events[i], run[i + 1]) && AllServed(run[i + 1]);
        ServedStep(run[i], events[i], run[i + 1]);
      }
    }
    if forall i :: 0 <= i < |events| ==> LooksAgain(run[i], events[i]) {
      forall i | 0 <= i < |run| ensures AllServed(run[i]) {
        ServedAlong(run, events, i);
      }
    }
  }

  // ---------- the plays a drop finds ----------

  /** Play `p` counted itself in after step `i`. */
  ghost predicate CountedSince(events: seq<Event>, i: nat, j: nat, p: nat) {
    exists m :: i < m < j <= |events| && events[m] == Count(p)
  }

  lemma {:induction false} ReadingOrCounted(run: seq<State>, events: seq<Event>, i: nat, j: nat, p: nat)
    requires IsRun(run, events) && i < j < |run| && p in run[j].reading
    ensures CountedSince(events, i, j, p) || (p in run[i + 1].reading && run[i + 1].reading[p] == run[j].reading[p])
    decreases j
  {
    if i + 1 < j {
      assert Stepped(run[j - 1], events[j - 1], run[j]);
      if p in run[j - 1].reading && run[j - 1].reading[p] == run[j].reading[p] {
        ReadingOrCounted(run, events, i, j - 1, p);
        if m :| i < m < j - 1 && events[m] == Count(p) {
          assert i < m < j && events[m] == Count(p);
        }
      } else {
        assert events[j - 1] == Count(p);
      }
    }
  }

  /** The half of `job` that drops the torrent, or deletes the record late. */
  predicate SecondHalf(e: Event, job: nat) {
    (e.EvictDrop? || e.DropTorrent? || e.DeleteRecord?) && e.job == job
  }

  /** At step `i` the job decides on what it picked out at step `first`: an eviction and a sweep look at
      the record as it is filed, a reap at the one it fetched then. */
  predicate Looked(events: seq<Event>, first: nat, i: nat, job: nat, ih: string) {
    && first <= i < |events|
    && (if first == i then events[i] == Decide(job, ih) || events[i] == EvictRecord(job, ih)
        else
          && events[first] == Hold(job, ih) && events[i] == DecideHeld(job)
          && forall m :: first < m < i ==> events[m] != DecideHeld(job))
  }

  lemma {:induction false} StillHeld(run: seq<State>, events: seq<Event>, first: nat, i: nat, job: nat, ih: string)
    requires IsRun(run, events) && first < i < |run| && events[first] == Hold(job, ih)
    requires forall m :: first < m < i ==> events[m] != DecideHeld(job)
    ensures job in run[i].held && run[i].held[job].ih == ih
    ensures ih in run[first].act ==> run[i].held[job].record == run[first].act[ih]
    decreases i
  {
    assert Stepped(run[i - 1], events[i - 1], run[i]);
    if first < i - 1 {
      StillHeld(run, events, first, i - 1, job, ih);
    }
  }

  /** Nobody reads, at the decision, the record that was filed when the job began on the torrent. */
  lemma LookFindsNobody(run: seq<State>, events: seq<Event>, first: nat, i: nat, job: nat, ih: string)
    requires IsRun(run, events) && Looked(events, first, i, job, ih)
    ensures ih in run[first].act ==> NobodyReads(run[i], Play(ih, run[first].act[ih]))
  {
    assert Stepped(run[i], events[i], run[i + 1]);
    if first < i {
      StillHeld(run, events, first, i, job, ih);
    }
  }

  lemma CountedLaterIsSince(events: seq<Event>, first: nat, i: nat, j: nat, p: nat)
    requires first <= i && CountedSince(events, i, j, p)
    ensures CountedSince(events, first, j, p)
  {
    var m :| i < m < j <= |events| && events[m] == Count(p);
    assert first < m < j && events[m] == Count(p);
  }

  /** A reader that has not counted itself in since the job began was reading then, and at the decision. */
  lemma ReadingBefore(run: seq<State>, events: seq<Event>, first: nat, i: nat, j: nat, job: nat, ih: string, p: nat)
    requires IsRun(run, events) && Looked(events, first, i, job, ih) && i < j < |events| && p in run[j].reading
    ensures CountedSince(events, first, j, p)
      || (&& p in run[first].reading && run[first].reading[p] == run[j].reading[p]
          && p in run[i].reading && run[i].reading[p] == run[j].reading[p])
  {
    ReadingOrCounted(run, events, first, j, p);
    ReadingOrCounted(run, events, i, j, p);
    assert Stepped(run[first], events[first], run[first + 1]) && Stepped(run[i], events[i], run[i + 1]);
    assert run[first + 1].reading == run[first].reading && run[i + 1].reading == run[i].reading;
    if CountedSince(events, i, j, p) {
      CountedLaterIsSince(events, first, i, j, p);
    }
  }

  /** A drop or a late deletion finds a reader exactly when one has counted itself in since the job began
      on the torrent, and is still reading: as long as all was well then, another look is all that would
      be needed. */
  lemma DropFindsReaderIff(run: seq<State>, events: seq<Event>, first: nat, i: nat, j: nat, job: nat, ih: string)
    requires IsRun(run, events) && Looked(events, first, i, job, ih) && i < j < |events|
    requires SecondHalf(events[j], job) && AllServed(run[first])
    ensures IsRead(run[j], ih) <==>
      exists p :: CountedSince(events, first, j, p) && p in run[j].reading && run[j].reading[p].ih == ih
  {
    if p :| p in run[j].reading && run[j].reading[p].ih == ih {
      ReadingBefore(run, events, first, i, j, job, ih, p);
      LookFindsNobody(run, events, first, i, job, ih);
      assert p in run[first].reading ==> Served(run[first], run[first].reading[p]);
    }
  }

  // ---------- three plays that lose what they read ----------

  /** A torrent is loaded and has record 0. */
  function Idle(ih: string): State {
    State(map[ih := 0], 1, {ih}, map[], map[], map[], map[])
  }

  lemma IdleIsReached(ih: string)
    ensures Steps([START, State(map[], 0, {ih}, map[], map[], map[], map[]), Idle(ih)], [Load(ih), Access(ih)])
  {
    assert Next(START, Load(ih)) == State(map[], 0, {ih}, map[], map[], map[], map[]);
  }

  lemma FromIdle(ih: string, more: seq<State>, next: seq<Event>) returns (run: seq<State>, events: seq<Event>)
    requires Steps(more, next) && more[0] == Idle(ih)
    ensures IsRun(run, events) && run[|run| - 1] == more[|more| - 1] && |run| == |more| + 2 && |events| == |next| + 2
    ensures events == [Load(ih), Access(ih)] + next && run[1..][1..] == more
    ensures forall m :: 0 <= m < |next| ==> run[m + 2] == more[m]
  {
    var first := State(map[], 0, {ih}, map[], map[], map[], map[]);
    IdleIsReached(ih);
    run, events := [START, first] + more, [Load(ih), Access(ih)] + next;
    forall m | 0 <= m < |events| ensures Stepped(run[m], events[m], run[m + 1]) {
      if m >= 2 {
        assert Stepped(more[m - 2], next[m - 2], more[m - 1]);
      } else {
        assert run[2] == Idle(ih);
        assert Stepped([START, first, Idle(ih)][m], [Load(ih), Access(ih)][m], [START, first, Idle(ih)][m + 1]);
      }
    }
  }

  /** A play opened after a reap or a sweep has looked at the readers reads on without its torrent. */
  lemma PlayOpenedDuringDrop(ih: string) returns (run: seq<State>, events: seq<Event>)
    ensures IsRun(run, events)
    ensures var last := run[|run| - 1]; IsRead(last, ih) && ih !in last.loaded
  {
    var s, q := Idle(ih), Play(ih, 0);
    var a := s.(jobs := map[0 := AddRace.Job(ih, AddRace.Decided)]);
    var b := a.(fetched := map[0 := q]);
    var c := a.(reading := map[0 := q]);
    var d := c.(loaded := {}, jobs := map[0 := AddRace.Job(ih, AddRace.Dropped)]);
    assert Next(s, Decide(0, ih)) == a && Next(a, Fetch(0, ih)) == b && Next(b, Count(0)) == c;
    assert Next(c, DropTorrent(0, true)) == d && d.reading[0].ih == ih;
    run, events := FromIdle(ih, [s, a, b, c, d], [Decide(0, ih), Fetch(0, ih), Count(0), DropTorrent(0, true)]);
  }

  lemma EvictedAndCounted(ih: string, a: State, b: State, c: State, d: State)
    requires a == Idle(ih).(act := map[], jobs := map[0 := AddRace.Job(ih, AddRace.Evicted)])
    requires b == a.(act := map[ih := 1], made := 2, fetched := map[0 := Play(ih, 1)])
    requires c == b.(fetched := map[], reading := map[0 := Play(ih, 1)]) && d == c.(loaded := {}, jobs := map[])
    ensures Stepped(Idle(ih), EvictRecord(0, ih), a) && Stepped(a, Fetch(0, ih), b)
    ensures Stepped(b, Count(0), c) && Stepped(c, EvictDrop(0, true), d) && LooksAgain(b, Count(0))
  {
    assert Next(Idle(ih), EvictRecord(0, ih)) == a && Next(a, Fetch(0, ih)) == b;
    assert Next(b, Count(0)) == c && Next(c, EvictDrop(0, true)) == d;
  }

  /** An eviction is enough: between its deletion of the record and its drop a play files a new record,
      counts itself, with the torrent loaded, and then loses it. */
  lemma PlayOpenedDuringEviction(ih: string) returns (run: seq<State>, events: seq<Event>)
    ensures IsRun(run, events) && forall e :: e in events ==> !e.Decide?
    ensures forall m :: 0 <= m < |events| && events[m].Count? ==> LooksAgain(run[m], events[m])
    ensures var last := run[|run| - 1]; IsRead(last, ih) && ih in last.act && ih !in last.loaded
  {
    var s, q := Idle(ih), Play(ih, 1);
    var a := s.(act := map[], jobs := map[0 := AddRace.Job(ih, AddRace.Evicted)]);
    var b := a.(act := map[ih := 1], made := 2, fetched := map[0 := q]);
    var c := b.(fetched := map[], reading := map[0 := q]);
    var d := c.(loaded := {}, jobs := map[]);
    EvictedAndCounted(ih, a, b, c, d);
    assert d.reading[0].ih == ih;
    var next := [EvictRecord(0, ih), Fetch(0, ih), Count(0), EvictDrop(0, true)];
    run, events := FromIdle(ih, [s, a, b, c, d], next);
    assert events == [events[0], events[1]] + next;
    assert events[0] == Load(ih) && events[1] == Access(ih);
  }

  lemma DroppedAndLoaded(ih: string, s: State, a: State, b: State, c: State)
    requires s == Idle(ih) && a == s.(jobs := map[0 := AddRace.Job(ih, AddRace.Decided)])
    requires b == s.(loaded := {}, jobs := map[0 := AddRace.Job(ih, AddRace.Dropped)]) && c == b.(loaded := {ih})
    ensures Stepped(s, Decide(0, ih), a) && Stepped(a, DropTorrent(0, true), b) && Stepped(b, Load(ih), c)
    ensures LooksAgain(a, DropTorrent(0, true))
  {
    assert Next(s, Decide(0, ih)) == a && Next(a, DropTorrent(0, true)) == b && Next(b, Load(ih)) == c;
  }

  lemma CountedAndDeleted(ih: string, c: State, d: State, e: State, f: State)
    requires c == Idle(ih).(jobs := map[0 := AddRace.Job(ih, AddRace.Dropped)])
    requires d == c.(fetched := map[0 := Play(ih, 0)]) && e == c.(reading := map[0 := Play(ih, 0)])
    requires f == e.(act := map[], jobs := map[])
    ensures Stepped(c, Fetch(0, ih), d) && Stepped(d, Count(0), e) && Stepped(e, DeleteRecord(0), f)
    ensures LooksAgain(d, Count(0))
  {
    assert Next(c, Fetch(0, ih)) == d && Next(d, Count(0)) == e;
    assert Next(e, DeleteRecord(0)) == f;
  }

  /** A sweep drops the torrent with nobody reading; it is added again while the files are removed, a
      play counts itself, and then its record is deleted. */
  lemma PlayOpenedBeforeLateDelete(ih: string) returns (run: seq<State>, events: seq<Event>)
    ensures IsRun(run, events)
    ensures forall m :: 0 <= m < |events| && !events[m].DeleteRecord? ==> LooksAgain(run[m], events[m])
    ensures var last := run[|run| - 1]; IsRead(last, ih) && ih !in last.act && ih in last.loaded
  {
    var s, q := Idle(ih), Play(ih, 0);
    var a := s.(jobs := map[0 := AddRace.Job(ih, AddRace.Decided)]);
    var b := s.(loaded := {}, jobs := map[0 := AddRace.Job(ih, AddRace.Dropped)]);
    var c := b.(loaded := {ih});
    var d := c.(fetched := map[0 := q]);
    var e := c.(reading := map[0 := q]);
    var f := e.(act := map[], jobs := map[]);
    DroppedAndLoaded(ih, s, a, b, c);
    CountedAndDeleted(ih, c, d, e, f);
    assert f.reading[0].ih == ih;
    var next := [Decide(0, ih), DropTorrent(0, true), Load(ih), Fetch(0, ih), Count(0), DeleteRecord(0)];
    run, events := FromIdle(ih, [s, a, b, c, d, e, f], next);
    assert events[0] == Load(ih) && events[1] == Access(ih);
  }
}
