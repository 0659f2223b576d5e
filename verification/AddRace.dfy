/** Adding a torrent, lock section by lock section (engine.go, cache.go). `EngineState` takes the start
    of an add as one step, and so every eviction, reap and sweep; here the calls of `ensure` and the
    halves of all evictions and drops are interleaved in any way. */
module AddRace {

  /** How far a call that has recorded its access has come. */
  datatype Phase =
    | Touched   // about to fetch the add lock of its infohash
    | Locking   // has the lock, waits for it
    | Held      // owns the lock, about to look the torrent up again
    | Ready     // found it missing, about to mark the add
    | Marked    // about to hand over the magnet
    | Added     // about to clear the mark
    | Leaving   // about to release the lock

  datatype Call = Call(ih: string, phase: Phase, lock: nat)

  datatype Record = Record(adding: bool, readers: nat)

  /** How far an eviction, or a reap or sweep of one torrent, has come. */
  datatype Stage =
    | Evicted   // an eviction has deleted the record, and is about to drop the torrent
    | Decided   // a reap or a sweep has found no reader, and is about to drop the torrent
    | Dropped   // it has dropped the torrent, and is about to delete the record

  datatype Job = Job(ih: string, stage: Stage)

  /** `locks` holds the add lock filed under an infohash; locks are numbered as they are made. A lock
      that is no longer filed may still be owned. */
  datatype State = State(act: map<string, Record>, locks: map<string, nat>, made: nat, owned: set<nat>,
                         loaded: set<string>, calls: map<nat, Call>, jobs: map<nat, Job>)

  const START := State(map[], map[], 0, {}, {}, map[], map[])

  /** `took` is whether the drop took a torrent from the client: a handle to one that has been dropped
      meanwhile takes nothing, though the torrent may have been added again. */
  datatype Event =
    | Touch(call: nat, ih: string)
    | Return(call: nat)
    | Fetch(call: nat)
    | Acquire(call: nat)
    | Recheck(call: nat)
    | Mark(call: nat)
    | Add(call: nat, accepted: bool)
    | Clear(call: nat)
    | Unlock(call: nat)
    | Access(ih: string)
    | Readers(ih: string, n: nat)
    | EvictRecord(job: nat, ih: string)
    | EvictDrop(job: nat, took: bool)
    | Decide(job: nat, ih: string)
    | DropTorrent(job: nat, took: bool)
    | DeleteRecord(job: nat)
    | GiveUp(job: nat)

  predicate At(s: State, call: nat, phase: Phase) {
    call in s.calls && s.calls[call].phase == phase
  }

  predicate JobAt(s: State, job: nat, stage: Stage) {
    job in s.jobs && s.jobs[job].stage == stage
  }

  function RecordOf(s: State, ih: string): Record {
    if ih in s.act then s.act[ih] else Record(false, 0)
  }

  predicate Pinned(r: Record) {
    r.adding || r.readers > 0
  }

  /** A call may find its torrent loaded at once, or go for the lock. Plays come and go, so the reader
      count of a record may be anything at any time; this also stands for a reap that looks at a record
      which is no longer filed. An eviction looks for a record nobody pins; a reap or a sweep only looks
      at the readers, and does not look again. */
  predicate Possible(s: State, e: Event) {
    match e
    case Touch(n, ih) => n !in s.calls
    case Return(n) => At(s, n, Touched) && s.calls[n].ih in s.loaded
    case Fetch(n) => At(s, n, Touched)
    case Acquire(n) => At(s, n, Locking) && s.calls[n].lock !in s.owned
    case Recheck(n) => At(s, n, Held)
    case Mark(n) => At(s, n, Ready)
    case Add(n, accepted) => At(s, n, Marked)
    case Clear(n) => At(s, n, Added)
    case Unlock(n) => At(s, n, Leaving)
    case Access(ih) => true
    case Readers(ih, n) => ih in s.act
    case EvictRecord(j, ih) => j !in s.jobs && ih in s.act && !Pinned(s.act[ih])
    case EvictDrop(j, took) => JobAt(s, j, Evicted)
    case Decide(j, ih) => j !in s.jobs && RecordOf(s, ih).readers == 0
    case DropTorrent(j, took) => JobAt(s, j, Decided)
    case DeleteRecord(j) => JobAt(s, j, Dropped)
    case GiveUp(j) => JobAt(s, j, Dropped)
  }

  function Filed(s: State, ih: string): State {
    s.(act := s.act[ih := RecordOf(s, ih)])
  }

  function Marking(s: State, ih: string, adding: bool): State {
    if ih in s.act then s.(act := s.act[ih := s.act[ih].(adding := adding)]) else s
  }

  function Moved(s: State, n: nat, phase: Phase): State
    requires n in s.calls
  {
    s.(calls := s.calls[n := s.calls[n].(phase := phase)])
  }

  /** `lockFor`: the lock filed under the infohash, or a new one. */
  function Fetched(s: State, n: nat): State
    requires n in s.calls
  {
    var c := s.calls[n];
    if c.ih in s.locks then s.(calls := s.calls[n := Call(c.ih, Locking, s.locks[c.ih])])
    else s.(calls := s.calls[n := Call(c.ih, Locking, s.made)], locks := s.locks[c.ih := s.made], made := s.made + 1)
  }

  /** Record and add lock are deleted together. */
  function Deleted(s: State, ih: string): State {
    s.(act := s.act - {ih}, locks := s.locks - {ih})
  }

  function Taken(s: State, ih: string, took: bool): State {
    if took then s.(loaded := s.loaded - {ih}) else s
  }

  function Next(s: State, e: Event): State
    requires Possible(s, e)
  {
    match e
    case Touch(n, ih) => Filed(s, ih).(calls := s.calls[n := Call(ih, Touched, 0)])
    case Return(n) => s.(calls := s.calls - {n})
    case Fetch(n) => Fetched(s, n)
    case Acquire(n) => Moved(s, n, Held).(owned := s.owned + {s.calls[n].lock})
    case Recheck(n) => Moved(s, n, if s.calls[n].ih in s.loaded then Leaving else Ready)
    case Mark(n) => Marking(Moved(s, n, Marked), s.calls[n].ih, true)
    case Add(n, accepted) =>
      Moved(s, n, Added).(loaded := if accepted then s.loaded + {s.calls[n].ih} else s.loaded)
    case Clear(n) => Marking(Moved(s, n, Leaving), s.calls[n].ih, false)
    case Unlock(n) => s.(calls := s.calls - {n}, owned := s.owned - {s.calls[n].lock})
    case Access(ih) => Filed(s, ih)
    case Readers(ih, n) => s.(act := s.act[ih := s.act[ih].(readers := n)])
    case EvictRecord(j, ih) => Deleted(s, ih).(jobs := s.jobs[j := Job(ih, Evicted)])
    case EvictDrop(j, took) => Taken(s, s.jobs[j].ih, took).(jobs := s.jobs - {j})
    case Decide(j, ih) => s.(jobs := s.jobs[j := Job(ih, Decided)])
    case DropTorrent(j, took) => Taken(s, s.jobs[j].ih, took).(jobs := s.jobs[j := Job(s.jobs[j].ih, Dropped)])
    case DeleteRecord(j) => Deleted(s, s.jobs[j].ih).(jobs := s.jobs - {j})
    case GiveUp(j) => s.(jobs := s.jobs - {j})
  }

  /** What the quiet steps do, and what a deletion looks at before it begins. */
  lemma QuietSteps(s: State, e: Event, t: State)
    requires Stepped(s, e, t)
    ensures e.Return? ==> s.calls[e.call].ih in s.loaded && t == s.(calls := s.calls - {e.call})
    ensures e.Access? ==> e.ih in t.act && (e.ih in s.act ==> t == s)
    ensures e.Readers? ==> t == s.(act := s.act[e.ih := Record(s.act[e.ih].adding, e.n)])
    ensures e.EvictRecord? ==> !s.act[e.ih].adding && s.act[e.ih].readers == 0
    ensures e.Decide? && e.ih in s.act ==> s.act[e.ih].readers == 0
    ensures e.GiveUp? ==> t == s.(jobs := s.jobs - {e.job})
  {
  }

  ghost predicate Stepped(s: State, e: Event, t: State) {
    Possible(s, e) && t == Next(s, e)
  }

  ghost predicate Steps(run: seq<State>, events: seq<Event>) {
    && |run| == |events| + 1
    && forall i :: 0 <= i < |events| ==> Stepped(run[i], events[i], run[i + 1])
  }

  ghost predicate IsRun(run: seq<State>, events: seq<Event>) {
    Steps(run, events) && run[0] == START
  }

  // ---------- when locks and torrents have records ----------

  ghost predicate LocksHaveRecords(s: State) {
    s.locks.Keys <= s.act.Keys
  }

  /** Some eviction other than `besides` has deleted the record of `ih` and not dropped it yet. */
  predicate BeingEvicted(s: State, ih: string, besides: int) {
    exists j :: j in s.jobs && j != besides && s.jobs[j] == Job(ih, Evicted)
  }

  predicate Covered(s: State, ih: string) {
    ih in s.loaded ==> ih in s.act || BeingEvicted(s, ih, -1)
  }

  /** Every loaded torrent has a record, but for evictions that have not come to their drop yet. */
  ghost predicate LoadedHaveRecords(s: State) {
    forall ih {:trigger Covered(s, ih)} :: Covered(s, ih)
  }

  /** A call fetches a lock for an infohash whose record is filed. */
  ghost predicate FetchFindsRecord(s: State, e: Event) {
    e.Fetch? && e.call in s.calls ==> s.calls[e.call].ih in s.act
  }

  /** A call that loads a torrent finds its record filed, or an eviction that will drop it; a drop that
      deletes a record does not find the torrent loaded again, or finds it being evicted; and an
      eviction's drop takes the torrent, unless it is gone, has a record again, or is being evicted by
      another. */
  predicate KeepsRecords(s: State, e: Event) {
    match e
    case Add(n, accepted) =>
      accepted && n in s.calls ==> s.calls[n].ih in s.act || BeingEvicted(s, s.calls[n].ih, -1)
    case DeleteRecord(j) =>
      j in s.jobs ==> s.jobs[j].ih !in s.loaded || BeingEvicted(s, s.jobs[j].ih, -1)
    case EvictDrop(j, took) =>
      j in s.jobs ==> took || s.jobs[j].ih !in s.loaded || s.jobs[j].ih in s.act || BeingEvicted(s, s.jobs[j].ih, j)
    case _ => true
  }

  lemma LocksStep(s: State, e: Event, t: State)
    requires Stepped(s, e, t) && LocksHaveRecords(s)
    ensures LocksHaveRecords(t) <==> FetchFindsRecord(s, e)
  {
  }

  /** What a step makes of the evictions under way. */
  lemma EvictionsStep(s: State, e: Event, t: State, ih: string)
    requires Stepped(s, e, t)
    ensures BeingEvicted(t, ih, -1) <==>
      if e.EvictRecord? && e.ih == ih then true
      else if e.EvictDrop? then BeingEvicted(s, ih, e.job)
      else BeingEvicted(s, ih, -1)
  {
    match e
    case EvictRecord(j, k) => assert t.jobs[j] == Job(k, Evicted);
      EvictionsKept(s, t, ih, j);
    case EvictDrop(j, _) => EvictionsKept(s, t, ih, j);
    case Decide(j, _) => EvictionsKept(s, t, ih, j);
    case DropTorrent(j, _) => EvictionsKept(s, t, ih, j);
    case DeleteRecord(j) => EvictionsKept(s, t, ih, j);
    case GiveUp(j) => EvictionsKept(s, t, ih, j);
    case _ =>
  }

  lemma EvictionsKept(s: State, t: State, ih: string, j: nat)
    requires forall k :: k != j ==> (k in s.jobs <==> k in t.jobs) && (k in s.jobs ==> s.jobs[k] == t.jobs[k])
    ensures BeingEvicted(s, ih, j) <==> BeingEvicted(t, ih, j)
    ensures BeingEvicted(s, ih, -1) <==> BeingEvicted(s, ih, j) || (j in s.jobs && s.jobs[j] == Job(ih, Evicted))
    ensures BeingEvicted(t, ih, -1) <==> BeingEvicted(t, ih, j) || (j in t.jobs && t.jobs[j] == Job(ih, Evicted))
  {
  }

  lemma CoveredStep(s: State, e: Event, t: State, ih: string)
    requires Stepped(s, e, t) && Covered(s, ih) && KeepsRecords(s, e)
    ensures Covered(t, ih)
  {
    EvictionsStep(s, e, t, ih);
    if e.EvictDrop? {
      EvictionsKept(s, t, ih, e.job);
    }
  }

  /** The infohash a step is about, for the steps that can leave a loaded torrent without a record. */
  function About(s: State, e: Event): string {
    match e
    case Add(n, _) => if n in s.calls then s.calls[n].ih else ""
    case EvictDrop(j, _) => if j in s.jobs then s.jobs[j].ih else ""
    case DeleteRecord(j) => if j in s.jobs then s.jobs[j].ih else ""
    case _ => ""
  }

  lemma UncoveredStep(s: State, e: Event, t: State)
    requires Stepped(s, e, t) && !KeepsRecords(s, e)
    ensures !Covered(t, About(s, e))
  {
    EvictionsStep(s, e, t, About(s, e));
  }

  lemma LoadedStep(s: State, e: Event, t: State)
    requires Stepped(s, e, t) && LoadedHaveRecords(s)
    ensures LoadedHaveRecords(t) <==> KeepsRecords(s, e)
  {
    if KeepsRecords(s, e) {
      forall ih ensures Covered(t, ih) {
        assert Covered(s, ih);
        CoveredStep(s, e, t, ih);
      }
    } else {
      UncoveredStep(s, e, t);
    }
  }

  lemma {:induction false} LocksAlong(run: seq<State>, events: seq<Event>, i: nat)
    requires IsRun(run, events) && i < |run|
    requires forall m :: 0 <= m < i ==> FetchFindsRecord(run[m], events[m])
    ensures LocksHaveRecords(run[i])
  {
    if i > 0 {
      LocksAlong(run, events, i - 1);
      assert Stepped(run[i - 1], events[i - 1], run[i]);
      LocksStep(run[i - 1], events[i - 1], run[i]);
    }
  }

  lemma {:induction false} LoadedAlong(run: seq<State>, events: seq<Event>, i: nat)
    requires IsRun(run, events) && i < |run|
    requires forall m :: 0 <= m < i ==> KeepsRecords(run[m], events[m])
    ensures LoadedHaveRecords(run[i])
  {
    if i > 0 {
      LoadedAlong(run, events, i - 1);
      assert Stepped(run[i - 1], events[i - 1], run[i]);
      LoadedStep(run[i - 1], events[i - 1], run[i]);
    }
  }

  /** Every lock has a record throughout a run exactly when every call still finds its record filed
      when it goes for its lock. */
  lemma LocksHaveRecordsIff(run: seq<State>, events: seq<Event>)
    requires IsRun(run, events)
    ensures (forall i :: 0 <= i < |run| ==> LocksHaveRecords(run[i]))
       <==> (forall i :: 0 <= i < |events| ==> FetchFindsRecord(run[i], events[i]))
  {
    if forall i :: 0 <= i < |run| ==> LocksHaveRecords(run[i]) {
      forall i | 0 <= i < |events| ensures FetchFindsRecord(run[i], events[i]) {
        assert Stepped(run[i], events[i], run[i + 1]) && LocksHaveRecords(run[i + 1]);
        LocksStep(run[i], events[i], run[i + 1]);
      }
    }
    if forall i :: 0 <= i < |events| ==> FetchFindsRecord(run[i], events[i]) {
      forall i | 0 <= i < |run| ensures LocksHaveRecords(run[i]) {
        LocksAlong(run, events, i);
      }
    }
  }

  /** Every loaded torrent has a record throughout a run, but for evictions that have not come to their
      drop, exactly when every add finds its record filed, no record is deleted by a reap or a sweep
      under a torrent that has been loaded again, and no eviction misses the torrent it is to drop. */
  lemma LoadedHaveRecordsIff(run: seq<State>, events: seq<Event>)
    requires IsRun(run, events)
    ensures (forall i :: 0 <= i < |run| ==> LoadedHaveRecords(run[i]))
       <==> (forall i :: 0 <= i < |events| ==> KeepsRecords(run[i], events[i]))
  {
    if forall i :: 0 <= i < |run| ==> LoadedHaveRecords(run[i]) {
      forall i | 0 <= i < |events| ensures KeepsRecords(run[i], events[i]) {
        assert Stepped(run[i], events[i], run[i + 1]) && LoadedHaveRecords(run[i + 1]);
        LoadedStep(run[i], events[i], run[i + 1]);
      }
    }
    if forall i :: 0 <= i < |events| ==> KeepsRecords(run[i], events[i]) {
      forall i | 0 <= i < |run| ensures LoadedHaveRecords(run[i]) {
        LoadedAlong(run, events, i);
      }
    }
  }

  // ---------- from the mark to the add ----------

  /** Another call loads this infohash, or clears its mark. */
  predicate Meddles(s: State, e: Event, n: nat, ih: string) {
    (e.Add? || e.Clear?) && e.call != n && e.call in s.calls && s.calls[e.call].ih == ih
  }

  predicate LetsBe(s: State, e: Event, n: nat, ih: string) {
    !Meddles(s, e, n, ih) && e != Add(n, true) && e != Add(n, false)
  }

  predicate Refiles(e: Event, ih: string) {
    (e.Touch? || e.Access?) && e.ih == ih
  }

  /** A reap or a sweep that has dropped the torrent before comes to deleting its record. */
  predicate LateDelete(s: State, e: Event, ih: string) {
    e.DeleteRecord? && e.job in s.jobs && s.jobs[e.job].ih == ih
  }

  /** Call `n` marks `ih` at step `i`, and no other call meddles before step `j`. */
  ghost predicate MarkedAlone(run: seq<State>, events: seq<Event>, i: nat, j: nat, n: nat, ih: string) {
    && IsRun(run, events) && i < j <= |events|
    && events[i] == Mark(n) && n in run[i].calls && run[i].calls[n].ih == ih
    && forall m :: i < m < j ==> LetsBe(run[m], events[m], n, ih)
  }

  /** A step deletes the record late. */
  ghost predicate DeletedLate(run: seq<State>, events: seq<Event>, i: nat, j: nat, ih: string) {
    exists m :: i < m < j <= |events| && m < |run| && LateDelete(run[m], events[m], ih)
  }

  /** The call is still about to add, and the record, if the mark found one, is held by the mark. */
  predicate Waiting(s: State, n: nat, ih: string, found: bool) {
    && At(s, n, Marked) && s.calls[n].ih == ih
    && (found ==> ih in s.act && s.act[ih].adding)
  }

  lemma WaitingStarts(s: State, t: State, n: nat, ih: string)
    requires Stepped(s, Mark(n), t) && s.calls[n].ih == ih
    ensures Waiting(t, n, ih, ih in s.act)
  {
  }

  lemma WaitingStep(s: State, e: Event, t: State, n: nat, ih: string, found: bool)
    requires Stepped(s, e, t) && Waiting(s, n, ih, found) && LetsBe(s, e, n, ih)
    ensures Waiting(t, n, ih, found && !LateDelete(s, e, ih))
  {
  }

  lemma {:induction false} StillWaiting(run: seq<State>, events: seq<Event>, i: nat, j: nat, n: nat, ih: string)
    requires MarkedAlone(run, events, i, j, n, ih)
    ensures Waiting(run[j], n, ih, ih in run[i].act && !DeletedLate(run, events, i, j, ih))
    decreases j
  {
    if i < j - 1 {
      StillWaiting(run, events, i, j - 1, n, ih);
      WaitingNext(run, events, i, j - 1, n, ih);
    } else {
      assert Stepped(run[i], events[i], run[j]);
      WaitingStarts(run[i], run[j], n, ih);
    }
  }

  lemma WaitingNext(run: seq<State>, events: seq<Event>, i: nat, k: nat, n: nat, ih: string)
    requires i < k && MarkedAlone(run, events, i, k + 1, n, ih)
    requires Waiting(run[k], n, ih, ih in run[i].act && !DeletedLate(run, events, i, k, ih))
    ensures Waiting(run[k + 1], n, ih, ih in run[i].act && !DeletedLate(run, events, i, k + 1, ih))
  {
    assert Stepped(run[k], events[k], run[k + 1]) && LetsBe(run[k], events[k], n, ih);
    var held := ih in run[i].act && !DeletedLate(run, events, i, k, ih);
    WaitingStep(run[k], events[k], run[k + 1], n, ih, held);
    DeletedLateNext(run, events, i, k, ih);
  }

  lemma DeletedLateNext(run: seq<State>, events: seq<Event>, i: nat, j: nat, ih: string)
    requires i < j < |events| && j < |run|
    ensures DeletedLate(run, events, i, j, ih) || LateDelete(run[j], events[j], ih) ==>
      DeletedLate(run, events, i, j + 1, ih)
  {
    if m :| i < m < j && LateDelete(run[m], events[m], ih) {
      assert i < m < j + 1;
    }
  }

  lemma {:induction false} StillMissing(run: seq<State>, events: seq<Event>, i: nat, j: nat, ih: string)
    requires IsRun(run, events) && i <= j <= |events| && ih !in run[i].act
    requires forall m :: i <= m < j ==> !Refiles(events[m], ih)
    ensures ih !in run[j].act
    decreases j
  {
    if i < j {
      StillMissing(run, events, i, j - 1, ih);
      assert Stepped(run[j - 1], events[j - 1], run[j]);
    }
  }

  /** A record that is still filed when the mark is set is filed when the torrent is loaded, unless a
      drop under way deletes it late; and, unless somebody files it anew, only then. */
  lemma RecordAtAddIffAtMark(run: seq<State>, events: seq<Event>, i: nat, j: nat, n: nat, ih: string)
    requires MarkedAlone(run, events, i, j, n, ih)
    ensures ih in run[i].act && !DeletedLate(run, events, i, j, ih) ==> ih in run[j].act
    ensures (forall m :: i < m < j ==> !Refiles(events[m], ih)) ==>
      (ih in run[j].act <==> ih in run[i].act && !DeletedLate(run, events, i, j, ih))
  {
    StillWaiting(run, events, i, j, n, ih);
    if forall m :: i < m < j ==> !Refiles(events[m], ih) {
      assert Stepped(run[i], events[i], run[i + 1]);
      if ih !in run[i].act {
        StillMissing(run, events, i + 1, j, ih);
      } else if DeletedLate(run, events, i, j, ih) {
        var m :| i < m < j && LateDelete(run[m], events[m], ih);
        assert Stepped(run[m], events[m], run[m + 1]);
        StillMissing(run, events, m + 1, j, ih);
      }
    }
  }

  // ---------- what keeps adds safe ----------

  /** No record is deleted that a call in flight is about, and no deletion or drop leaves a loaded
      torrent without a record. */
  ghost predicate Careful(s: State, e: Event) {
    && (forall n {:trigger n in s.calls} :: n in s.calls ==>
          && (e.EvictRecord? ==> s.calls[n].ih != e.ih)
          && !LateDelete(s, e, s.calls[n].ih))
    && (e.DeleteRecord? || e.EvictDrop? ==> KeepsRecords(s, e))
  }

  predicate Owns(c: Call) {
    c.phase != Touched && c.phase != Locking
  }

  /** A call's record and lock are the filed ones, it owns its lock once it has acquired it, and its
      torrent is missing while it gets ready and marked while it adds. */
  predicate CallFits(s: State, n: nat) {
    n in s.calls ==>
      var c := s.calls[n];
      && c.ih in s.act
      && (c.phase != Touched ==> c.ih in s.locks && s.locks[c.ih] == c.lock)
      && (Owns(c) ==> c.lock in s.owned)
      && (c.phase == Ready || c.phase == Marked ==> c.ih !in s.loaded)
      && (c.phase == Marked ==> s.act[c.ih].adding)
  }

  predicate Alone(s: State, m: nat, n: nat) {
    m in s.calls && n in s.calls && Owns(s.calls[m]) && Owns(s.calls[n]) && s.calls[m].ih == s.calls[n].ih ==> m == n
  }

  predicate OwnLock(s: State, a: string, b: string) {
    a in s.locks && b in s.locks && s.locks[a] == s.locks[b] ==> a == b
  }

  ghost predicate Safe(s: State) {
    && LocksHaveRecords(s) && LoadedHaveRecords(s)
    && (forall n {:trigger CallFits(s, n)} :: CallFits(s, n))
    && (forall m, n {:trigger Alone(s, m, n)} :: Alone(s, m, n))
    && (forall a, b {:trigger OwnLock(s, a, b)} :: OwnLock(s, a, b))
    && (forall a {:trigger s.locks[a]} :: a in s.locks ==> s.locks[a] < s.made)
    && (forall l {:trigger l in s.owned} :: l in s.owned ==> l < s.made)
  }

  lemma StartIsSafe()
    ensures Safe(START)
  {
  }

  lemma LocksStayOwn(s: State, e: Event, t: State)
    requires Safe(s) && Stepped(s, e, t)
    ensures forall a, b {:trigger OwnLock(t, a, b)} :: OwnLock(t, a, b)
    ensures forall a {:trigger t.locks[a]} :: a in t.locks ==> t.locks[a] < t.made
  {
    forall a, b ensures OwnLock(t, a, b) {
      assert OwnLock(s, a, b);
    }
  }

  lemma OwnersStayKnown(s: State, e: Event, t: State)
    requires Safe(s) && Stepped(s, e, t)
    ensures forall l {:trigger l in t.owned} :: l in t.owned ==> l < t.made
  {
    if e.Acquire? {
      assert CallFits(s, e.call);
    }
  }

  predicate OfCall(e: Event) {
    || e.Touch? || e.Return? || e.Fetch? || e.Acquire? || e.Recheck? || e.Mark? || e.Add? || e.Clear? || e.Unlock?
  }

  lemma OwnStepKeepsFit(s: State, e: Event, t: State)
    requires Safe(s) && Stepped(s, e, t) && OfCall(e)
    ensures CallFits(t, e.call)
  {
    assert CallFits(s, e.call);
  }

  lemma OtherCallKeepsFit(s: State, e: Event, t: State, n: nat)
    requires Safe(s) && Stepped(s, e, t) && OfCall(e) && e.call != n
    ensures CallFits(t, n)
  {
    assert CallFits(s, n) && CallFits(s, e.call) && Alone(s, n, e.call);
    if n in s.calls && e.call in s.calls {
      assert OwnLock(s, s.calls[n].ih, s.calls[e.call].ih);
    }
  }

  lemma JobKeepsFit(s: State, e: Event, t: State, n: nat)
    requires Safe(s) && Stepped(s, e, t) && Careful(s, e) && !OfCall(e)
    ensures CallFits(t, n)
  {
    assert CallFits(s, n);
  }

  lemma CallStaysFitting(s: State, e: Event, t: State, n: nat)
    requires Safe(s) && Stepped(s, e, t) && Careful(s, e)
    ensures CallFits(t, n)
  {
    if !OfCall(e) {
      JobKeepsFit(s, e, t, n);
    } else if e.call == n {
      OwnStepKeepsFit(s, e, t);
    } else {
      OtherCallKeepsFit(s, e, t, n);
    }
  }

  lemma CallsStayAlone(s: State, e: Event, t: State, m: nat, n: nat)
    requires Safe(s) && Stepped(s, e, t)
    ensures Alone(t, m, n)
  {
    assert Alone(s, m, n) && CallFits(s, m) && CallFits(s, n);
  }

  lemma StepIsSafe(s: State, e: Event, t: State)
    requires Safe(s) && Stepped(s, e, t) && Careful(s, e)
    ensures Safe(t)
  {
    LocksStayOwn(s, e, t);
    OwnersStayKnown(s, e, t);
    forall n ensures CallFits(t, n) {
      CallStaysFitting(s, e, t, n);
    }
    forall m, n ensures Alone(t, m, n) {
      CallsStayAlone(s, e, t, m, n);
    }
    if e.Fetch? || e.Add? {
      assert CallFits(s, e.call);
    }
    LocksStep(s, e, t);
    LoadedStep(s, e, t);
  }

  /** As long as no deletion takes the record of an infohash some call is about, and none comes late or
      misses its torrent, every lock and every loaded torrent has its record, but for evictions that
      have not come to their drop, and no two calls add the same torrent at once. */
  lemma {:induction false} CarefulRunsAreSafe(run: seq<State>, events: seq<Event>, i: nat)
    requires IsRun(run, events) && i < |run|
    requires forall m :: 0 <= m < i ==> Careful(run[m], events[m])
    ensures Safe(run[i])
  {
    if i == 0 {
      StartIsSafe();
    } else {
      CarefulRunsAreSafe(run, events, i - 1);
      assert Stepped(run[i - 1], events[i - 1], run[i]);
      StepIsSafe(run[i - 1], events[i - 1], run[i]);
    }
  }

  // ---------- what does go wrong ----------

  lemma StepsJoin(run: seq<State>, events: seq<Event>, more: seq<State>, next: seq<Event>)
    requires Steps(run, events) && Steps(more, next) && run[|run| - 1] == more[0]
    ensures Steps(run + more[1..], events + next)
    ensures (run + more[1..])[0] == run[0] && (run + more[1..])[|events| + |next|] == more[|next|]
  {
    var r, e := run + more[1..], events + next;
    forall i | 0 <= i < |e| ensures Stepped(r[i], e[i], r[i + 1]) {
      if i < |events| {
        assert Stepped(run[i], events[i], run[i + 1]);
      } else {
        assert r[i] == more[i - |events|] && r[i + 1] == more[i + 1 - |events|];
        assert Stepped(more[i - |events|], next[i - |events|], more[i + 1 - |events|]);
      }
    }
  }

  /** Every fetch and every add finds its record, and no drop leaves a torrent without one. */
  ghost predicate AllFound(run: seq<State>, events: seq<Event>) {
    && |run| == |events| + 1
    && forall i :: 0 <= i < |events| ==> FetchFindsRecord(run[i], events[i]) && KeepsRecords(run[i], events[i])
  }

  lemma FoundJoin(run: seq<State>, events: seq<Event>, more: seq<State>, next: seq<Event>)
    requires AllFound(run, events) && AllFound(more, next) && run[|run| - 1] == more[0]
    ensures AllFound(run + more[1..], events + next)
  {
    var r, e := run + more[1..], events + next;
    forall i | 0 <= i < |e| ensures FetchFindsRecord(r[i], e[i]) && KeepsRecords(r[i], e[i]) {
      if i >= |events| {
        assert r[i] == more[i - |events|] && e[i] == next[i - |events|];
      }
    }
  }

  lemma StepAdds(run: seq<State>, events: seq<Event>, e: Event, t: State)
    requires Steps(run, events) && Stepped(run[|events|], e, t)
    ensures Steps(run + [t], events + [e])
  {
    assert run + [t] == run + [run[|events|], t][1..];
    StepsJoin(run, events, [run[|events|], t], [e]);
  }

  function Acts(ih: string, filed: bool, adding: bool): map<string, Record> {
    if filed then map[ih := Record(adding, 0)] else map[]
  }

  /** Call `n` has touched `ih`; its lock is, or is not, filed yet. */
  function Seen(ih: string, filed: bool, lock: bool, n: nat, jobs: map<nat, Job>): State {
    State(Acts(ih, filed, false), if lock then map[ih := 0] else map[], if lock then 1 else 0, {}, {},
          map[n := Call(ih, Touched, 0)], jobs)
  }

  /** Call `n`, alone, has come to this phase. */
  function InPhase(ih: string, filed: bool, n: nat, jobs: map<nat, Job>, phase: Phase): State {
    State(Acts(ih, filed, phase == Marked || phase == Added), map[ih := 0], 1, if phase == Locking then {} else {0},
          if phase == Added || phase == Leaving then {ih} else {}, map[n := Call(ih, phase, 0)], jobs)
  }

  function LoadedWith(ih: string, filed: bool, jobs: map<nat, Job>): State {
    State(Acts(ih, filed, false), map[ih := 0], 1, {}, {ih}, map[], jobs)
  }

  lemma FetchStep(ih: string, filed: bool, lock: bool, n: nat, jobs: map<nat, Job>)
    ensures Stepped(Seen(ih, filed, lock, n, jobs), Fetch(n), InPhase(ih, filed, n, jobs, Locking))
  {
  }

  lemma AcquireStep(ih: string, filed: bool, n: nat, jobs: map<nat, Job>)
    ensures Stepped(InPhase(ih, filed, n, jobs, Locking), Acquire(n), InPhase(ih, filed, n, jobs, Held))
  {
  }

  lemma RecheckStep(ih: string, filed: bool, n: nat, jobs: map<nat, Job>)
    ensures Stepped(InPhase(ih, filed, n, jobs, Held), Recheck(n), InPhase(ih, filed, n, jobs, Ready))
  {
  }

  lemma MarkStep(ih: string, filed: bool, n: nat, jobs: map<nat, Job>)
    ensures Stepped(InPhase(ih, filed, n, jobs, Ready), Mark(n), InPhase(ih, filed, n, jobs, Marked))
  {
  }

  lemma AddStep(ih: string, filed: bool, n: nat, jobs: map<nat, Job>)
    ensures Stepped(InPhase(ih, filed, n, jobs, Marked), Add(n, true), InPhase(ih, filed, n, jobs, Added))
  {
  }

  lemma ClearStep(ih: string, filed: bool, n: nat, jobs: map<nat, Job>)
    ensures Stepped(InPhase(ih, filed, n, jobs, Added), Clear(n), InPhase(ih, filed, n, jobs, Leaving))
  {
  }

  lemma UnlockStep(ih: string, filed: bool, n: nat, jobs: map<nat, Job>)
    ensures Stepped(InPhase(ih, filed, n, jobs, Leaving), Unlock(n), LoadedWith(ih, filed, jobs))
  {
  }

  /** From its touch to its mark, with nobody in its way. */
  lemma GoesToMark(ih: string, filed: bool, lock: bool, n: nat, jobs: map<nat, Job>)
    returns (run: seq<State>, events: seq<Event>)
    ensures Steps(run, events) && events == [Fetch(n), Acquire(n), Recheck(n), Mark(n)]
    ensures run[0] == Seen(ih, filed, lock, n, jobs) && run[3] == InPhase(ih, filed, n, jobs, Ready)
    ensures run[4] == InPhase(ih, filed, n, jobs, Marked) && (filed ==> AllFound(run, events))
  {
    FetchStep(ih, filed, lock, n, jobs);
    AcquireStep(ih, filed, n, jobs);
    RecheckStep(ih, filed, n, jobs);
    MarkStep(ih, filed, n, jobs);
    run := [Seen(ih, filed, lock, n, jobs), InPhase(ih, filed, n, jobs, Locking), InPhase(ih, filed, n, jobs, Held),
            InPhase(ih, filed, n, jobs, Ready), InPhase(ih, filed, n, jobs, Marked)];
    events := [Fetch(n), Acquire(n), Recheck(n), Mark(n)];
  }

  /** From its mark to its end. */
  lemma GoesToEnd(ih: string, filed: bool, n: nat, jobs: map<nat, Job>)
    returns (run: seq<State>, events: seq<Event>)
    ensures Steps(run, events) && events == [Add(n, true), Clear(n), Unlock(n)]
    ensures run[0] == InPhase(ih, filed, n, jobs, Marked) && run[3] == LoadedWith(ih, filed, jobs)
    ensures filed ==> AllFound(run, events)
  {
    AddStep(ih, filed, n, jobs);
    ClearStep(ih, filed, n, jobs);
    UnlockStep(ih, filed, n, jobs);
    run := [InPhase(ih, filed, n, jobs, Marked), InPhase(ih, filed, n, jobs, Added),
            InPhase(ih, filed, n, jobs, Leaving), LoadedWith(ih, filed, jobs)];
    events := [Add(n, true), Clear(n), Unlock(n)];
  }

  lemma GoesThrough(ih: string, filed: bool, lock: bool, n: nat, jobs: map<nat, Job>)
    returns (run: seq<State>, events: seq<Event>)
    ensures Steps(run, events)
    ensures run[0] == Seen(ih, filed, lock, n, jobs) && run[|events|] == LoadedWith(ih, filed, jobs)
    ensures filed ==> AllFound(run, events)
  {
    var r, e := GoesToMark(ih, filed, lock, n, jobs);
    var q, f := GoesToEnd(ih, filed, n, jobs);
    StepsJoin(r, e, q, f);
    if filed {
      FoundJoin(r, e, q, f);
    }
    run, events := r + q[1..], e + f;
  }

  /** One call, undisturbed but for an eviction between its first two lock sections: its lock, and
      then its torrent, end up without a record, so nothing is left for an eviction to find although
      the torrent is neither read nor being added. */
  lemma EvictedBeforeLocking(ih: string) returns (run: seq<State>, events: seq<Event>)
    ensures IsRun(run, events) && run[|events|] == LoadedWith(ih, false, map[])
  {
    var a := Seen(ih, true, false, 0, map[]);
    var b := Seen(ih, false, false, 0, map[0 := Job(ih, Evicted)]);
    var c := Seen(ih, false, false, 0, map[]);
    var r, e := [START, a, b, c], [Touch(0, ih), EvictRecord(0, ih), EvictDrop(0, false)];
    assert Next(START, Touch(0, ih)) == a;
    assert Next(a, EvictRecord(0, ih)) == b;
    assert Next(b, EvictDrop(0, false)) == c;
    var q, f := GoesThrough(ih, false, false, 0, map[]);
    StepsJoin(r, e, q, f);
    run, events := r + q[1..], e + f;
  }

  /** A torrent is loaded, and a sweep or a reap drops it; then a second call has touched it. */
  lemma DroppedAndTouched(ih: string) returns (run: seq<State>, events: seq<Event>)
    ensures IsRun(run, events) && run[|events|] == Seen(ih, true, true, 1, map[0 := Job(ih, Dropped)])
    ensures AllFound(run, events)
  {
    var s := Seen(ih, true, false, 0, map[]);
    assert Next(START, Touch(0, ih)) == s;
    var r, e := GoesThrough(ih, true, false, 0, map[]);
    StepsJoin([START, s], [Touch(0, ih)], r, e);
    FoundJoin([START, s], [Touch(0, ih)], r, e);
    run, events := [START, s] + r[1..], [Touch(0, ih)] + e;
    var a := LoadedWith(ih, true, map[]);
    var b, c := a.(jobs := map[0 := Job(ih, Decided)]), a.(jobs := map[0 := Job(ih, Dropped)], loaded := {});
    var d := Seen(ih, true, true, 1, map[0 := Job(ih, Dropped)]);
    var q, f := [a, b, c, d], [Decide(0, ih), DropTorrent(0, true), Touch(1, ih)];
    assert Next(a, Decide(0, ih)) == b;
    assert Next(b, DropTorrent(0, true)) == c;
    assert Next(c, Touch(1, ih)) == d;
    StepsJoin(run, events, q, f);
    FoundJoin(run, events, q, f);
    run, events := run + q[1..], events + f;
  }

  /** A drop that comes late to its record takes it from under an add that has marked it: the mark finds
      the record, nobody else loads or unmarks, and the add finds none. */
  lemma DeletedUnderTheAdd(ih: string) returns (run: seq<State>, events: seq<Event>, i: nat, j: nat)
    ensures MarkedAlone(run, events, i, j, 1, ih) && ih in run[i].act
    ensures j < |events| && events[j] == Add(1, true) && ih !in run[j].act
    ensures run[|events|].act == map[] && run[|events|].loaded == {ih}
  {
    var jobs := map[0 := Job(ih, Dropped)];
    run, events := DroppedAndTouched(ih);
    var k := |events|;
    var q, next := GoesToMark(ih, true, true, 1, jobs);
    StepsJoin(run, events, q, next);
    run, events := run + q[1..], events + next;
    var d := run[k + 4];
    var e := d.(act := map[], locks := map[], jobs := map[]);
    var f := e.(loaded := {ih}, calls := map[1 := Call(ih, Added, 0)]);
    DeleteThenAdd(ih, d, e, f);
    StepAdds(run, events, DeleteRecord(0), e);
    StepAdds(run + [e], events + [DeleteRecord(0)], Add(1, true), f);
    run, events := run + [e] + [f], events + [DeleteRecord(0)] + [Add(1, true)];
    i, j := k + 3, k + 5;
    assert run[i] == q[3] && events[i] == next[3] && events[i + 1] == DeleteRecord(0);
  }

  lemma DeleteThenAdd(ih: string, d: State, e: State, f: State)
    requires d == InPhase(ih, true, 1, map[0 := Job(ih, Dropped)], Marked)
    requires e == d.(act := map[], locks := map[], jobs := map[])
    requires f == e.(loaded := {ih}, calls := map[1 := Call(ih, Added, 0)])
    ensures Stepped(d, DeleteRecord(0), e) && Stepped(e, Add(1, true), f)
  {
    assert Next(d, DeleteRecord(0)) == e;
    assert Next(e, Add(1, true)) == f;
  }

  /** The same drop, coming to the record after the add is through: every fetch and every add finds its
      record, no call is in flight at the deletion, and the loaded torrent is left without one. */
  lemma DeletedUnderTheTorrent(ih: string) returns (run: seq<State>, events: seq<Event>)
    ensures IsRun(run, events) && 0 < |events| && events[|events| - 1] == DeleteRecord(0)
    ensures run[|events| - 1] == LoadedWith(ih, true, map[0 := Job(ih, Dropped)])
    ensures AllFound(run[..|events|], events[..|events| - 1])
    ensures run[|events|].act == map[] && run[|events|].loaded == {ih} && run[|events|].jobs == map[]
  {
    var jobs := map[0 := Job(ih, Dropped)];
    var r, e := DroppedAndTouched(ih);
    var q, f := GoesThrough(ih, true, true, 1, jobs);
    StepsJoin(r, e, q, f);
    run, events := r + q[1..], e + f;
    var a := LoadedWith(ih, true, jobs);
    var b := a.(act := map[], locks := map[], jobs := map[]);
    assert Next(a, DeleteRecord(0)) == b;
    StepsJoin(run, events, [a, b], [DeleteRecord(0)]);
    FoundJoin(r, e, q, f);
    assert (run + [a, b][1..])[..|run|] == run && (events + [DeleteRecord(0)])[..|events|] == events;
    run, events := run + [a, b][1..], events + [DeleteRecord(0)];
  }
}
