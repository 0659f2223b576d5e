/** The engine's state as a value, and the steps that change it (engine.go, and the
    deletions in cache.go). `R` is the identity of an activity record: open plays hold a
    record, not an infohash, and would keep it if it left the map. */
module EngineState {
  import opened Basics
  import opened CachePlan

  /** A reference to an activity record, with the infohash the record was created for. */
  datatype Ref<R> = Ref(infohash: string, id: R)

  datatype View<R> = View(record: Ref<R>, readers: int, adding: bool, lastAccess: int) {
    /** Somebody is reading this torrent or adding it right now. */
    predicate Pinned() {
      readers > 0 || adding
    }
  }

  /** `loaded` is what the torrent client holds; `plays` has one occurrence of a record
      per open play holding it. */
  datatype Snapshot<R(==)> = Snapshot(act: map<string, View<R>>, locks: set<string>,
                                      loaded: set<string>, plays: multiset<Ref<R>>)

  ghost predicate Inv<R>(s: Snapshot<R>) {
    && "" !in s.act
    && s.locks <= s.act.Keys
    && s.loaded <= s.act.Keys
    && (forall k {:trigger Counted(s, k)} :: k in s.act ==> Counted(s, k))
    && (forall r {:trigger Current(s, r)} :: r in s.plays ==> Current(s, r))
  }

  /** The record filed under `k` counts the open plays that hold it, and is not marked as
      being added once its torrent is loaded. */
  predicate Counted<R(==)>(s: Snapshot<R>, k: string) {
    && k in s.act
    && s.act[k].record.infohash == k
    && s.act[k].readers == s.plays[s.act[k].record]
    && (k in s.loaded ==> !s.act[k].adding)
  }

  /** The record is still the one filed under its infohash. */
  predicate Current<R(==)>(s: Snapshot<R>, r: Ref<R>) {
    r.infohash in s.act && s.act[r.infohash].record == r
  }

  predicate ValidInfohash(ih: string) {
    |ih| == 40 && forall i :: 0 <= i < |ih| ==> '0' <= ih[i] <= '9' || 'a' <= ih[i] <= 'f'
  }

  predicate IsHexDigit(c: char) {
    48 <= c as int <= 57 || 97 <= c as int <= 102
  }

  /** Forty lower-case hexadecimal digits, and nothing else. */
  lemma ValidInfohashIff(ih: string)
    ensures ValidInfohash(ih) <==> |ih| == 40 && forall i :: 0 <= i < 40 && i < |ih| ==> IsHexDigit(ih[i])
  {
  }

  // ---------- what each step does ----------

  /** The record of `ih` after an access at `now`; a missing record is created as `r`. */
  function Accessed<R>(s: Snapshot<R>, ih: string, r: Ref<R>, now: int): View<R> {
    if ih in s.act then s.act[ih].(lastAccess := now) else View(r, 0, false, now)
  }

  function Touched<R>(s: Snapshot<R>, ih: string, r: Ref<R>, now: int): Snapshot<R> {
    s.(act := s.act[ih := Accessed(s, ih, r, now)])
  }

  /** `ensure` up to the capacity check: a torrent the client lacks gets its lock and is
      marked as being added. */
  function Begun<R>(s: Snapshot<R>, ih: string, r: Ref<R>, now: int): Snapshot<R> {
    if !ValidInfohash(ih) then s
    else if ih in s.loaded then Touched(s, ih, r, now)
    else s.(locks := s.locks + {ih}, act := s.act[ih := Accessed(s, ih, r, now).(adding := true)])
  }

  /** The end of `ensure`: the client took the magnet or refused it. */
  function Finished<R>(s: Snapshot<R>, ih: string, accepted: bool): Snapshot<R>
    requires ih in s.act
  {
    s.(loaded := if accepted then s.loaded + {ih} else s.loaded,
       act := s.act[ih := s.act[ih].(adding := false)])
  }

  /** The records, add locks and torrents of `gone` are given up. */
  function Forgotten<R>(s: Snapshot<R>, gone: set<string>): Snapshot<R> {
    s.(act := s.act - gone, locks := s.locks - gone, loaded := s.loaded - gone)
  }

  function PinnedKeys<R>(s: Snapshot<R>): set<string> {
    set k | k in s.act && s.act[k].Pinned()
  }

  /** `evictOldest` may forget `gone` and, when `ok`, drops the torrent `victim`: only
      unpinned records go, none newer than the victim, and none older stays. */
  ghost predicate Evicts<R>(s: Snapshot<R>, ok: bool, gone: set<string>, victim: string) {
    && gone <= s.act.Keys - PinnedKeys(s)
    && (ok ==> victim in gone && gone * s.loaded == {victim})
    && (ok ==> forall k :: k in gone ==> s.act[k].lastAccess <= s.act[victim].lastAccess)
    && (ok ==> forall k :: k in s.act.Keys - gone - PinnedKeys(s) ==> s.act[victim].lastAccess <= s.act[k].lastAccess)
    && (!ok ==> gone == s.act.Keys - PinnedKeys(s) && gone !! s.loaded)
  }

  /** `k` is a least recently used record among those nobody reads or adds. */
  ghost predicate IsOldest<R>(s: Snapshot<R>, k: string) {
    && k in s.act.Keys - PinnedKeys(s)
    && forall m :: m in s.act.Keys - PinnedKeys(s) ==> s.act[k].lastAccess <= s.act[m].lastAccess
  }

  /** `evictOldest` midway: `gone` held no loaded torrent, and `newest` went last. */
  ghost predicate EvictsSoFar<R>(s: Snapshot<R>, gone: set<string>, newest: string) {
    && gone <= s.act.Keys - PinnedKeys(s)
    && gone !! s.loaded
    && (gone != {} ==> newest in gone)
    && (forall k :: k in gone ==> s.act[k].lastAccess <= s.act[newest].lastAccess)
    && (gone != {} ==>
         forall k :: k in s.act.Keys - gone - PinnedKeys(s) ==> s.act[newest].lastAccess <= s.act[k].lastAccess)
  }

  lemma EvictOneMore<R>(s: Snapshot<R>, gone: set<string>, newest: string, oldest: string)
    requires EvictsSoFar(s, gone, newest) && IsOldest(Forgotten(s, gone), oldest)
    ensures oldest !in s.loaded ==> EvictsSoFar(s, gone + {oldest}, oldest)
    ensures oldest in s.loaded ==> Evicts(s, true, gone + {oldest}, oldest)
    ensures Forgotten(Forgotten(s, gone), {oldest}) == Forgotten(s, gone + {oldest})
  {
    var t := Forgotten(s, gone);
    forall k | k in s.act.Keys - gone - PinnedKeys(s) ensures s.act[oldest].lastAccess <= s.act[k].lastAccess {
      assert k in t.act.Keys - PinnedKeys(t);
    }
  }

  lemma EvictNoMore<R>(s: Snapshot<R>, gone: set<string>, newest: string)
    requires EvictsSoFar(s, gone, newest)
    requires Forgotten(s, gone).act.Keys == PinnedKeys(Forgotten(s, gone))
    ensures Evicts(s, false, gone, "")
  {
    forall k | k in s.act.Keys - PinnedKeys(s) ensures k in gone {
      assert k !in gone ==> k in Forgotten(s, gone).act;
    }
  }

  /** The torrents `reapIdle` drops. */
  function IdleKeys<R>(s: Snapshot<R>, timeout: int, now: int): set<string> {
    set k | k in s.loaded && k in s.act && s.act[k].readers == 0 && Since(now, s.act[k].lastAccess) > timeout
  }

  /** A sweep drops the torrents it plans to delete; the records of those whose files it
      could not remove stay. */
  function Swept<R>(s: Snapshot<R>, dropped: set<string>, removed: set<string>): Snapshot<R> {
    s.(act := s.act - removed, locks := s.locks - removed, loaded := s.loaded - dropped)
  }

  ghost predicate Sweeps<R>(s: Snapshot<R>, dropped: set<string>, removed: set<string>) {
    && removed <= dropped <= s.loaded
    && forall k :: k in dropped && k in s.act ==> s.act[k].readers <= 0
  }

  /** A play fetches its record and counts itself as a reader. */
  function Opened<R>(s: Snapshot<R>, ih: string, r: Ref<R>, now: int): Snapshot<R> {
    var v := Accessed(s, ih, r, now);
    s.(act := s.act[ih := v.(readers := v.readers + 1)], plays := s.plays + multiset{v.record})
  }

  /** The play holding the record of `ih` ends. */
  function Closed<R>(s: Snapshot<R>, ih: string, now: int): Snapshot<R>
    requires ih in s.act
  {
    var v := s.act[ih];
    s.(act := s.act[ih := v.(readers := v.readers - 1, lastAccess := now)],
       plays := s.plays - multiset{v.record})
  }

  datatype Event<R> =
    | Touch(ih: string, r: Ref<R>, now: int)
    | BeginAdd(ih: string, r: Ref<R>, now: int)
    | FinishAdd(ih: string, accepted: bool)
    | Evict(ok: bool, gone: set<string>, victim: string)
    | Reap(timeout: int, now: int)
    | Sweep(dropped: set<string>, removed: set<string>)
    | Open(ih: string, r: Ref<R>, now: int)
    | Close(ih: string, now: int)

  ghost predicate Step<R>(s: Snapshot<R>, e: Event<R>, t: Snapshot<R>) {
    match e
    case Touch(ih, r, now) => ih != "" && (ih !in s.act ==> r.infohash == ih) && t == Touched(s, ih, r, now)
    case BeginAdd(ih, r, now) => (ih !in s.act ==> r.infohash == ih) && t == Begun(s, ih, r, now)
    case FinishAdd(ih, accepted) => ih in s.act && s.act[ih].adding && t == Finished(s, ih, accepted)
    case Evict(ok, gone, victim) => Evicts(s, ok, gone, victim) && t == Forgotten(s, gone)
    case Reap(timeout, now) => t == Forgotten(s, IdleKeys(s, timeout, now))
    case Sweep(dropped, removed) => Sweeps(s, dropped, removed) && t == Swept(s, dropped, removed)
    case Open(ih, r, now) => ih != "" && (ih !in s.act ==> r.infohash == ih) && t == Opened(s, ih, r, now)
    case Close(ih, now) => ih in s.act && s.act[ih].record in s.plays && t == Closed(s, ih, now)
  }

  /** What `reapIdle` does about one torrent. */
  function ReapedOne<R>(t: Snapshot<R>, ih: string, timeout: int, now: int): Snapshot<R>
    requires ih in t.act
  {
    if t.act[ih].readers == 0 && Since(now, t.act[ih].lastAccess) > timeout then Forgotten(t, {ih}) else t
  }

  /** One torrent of the scan: `todo` is what is left to look at. */
  lemma ReapNext<R>(s: Snapshot<R>, todo: set<string>, ih: string, timeout: int, now: int)
    requires ih in todo && todo <= s.loaded <= s.act.Keys
    ensures var idle := IdleKeys(s, timeout, now);
            var t := Forgotten(s, idle - todo);
            ih in t.act && ReapedOne(t, ih, timeout, now) == Forgotten(s, idle - (todo - {ih}))
  {
    var idle := IdleKeys(s, timeout, now);
    if ih in idle {
      assert idle - (todo - {ih}) == (idle - todo) + {ih};
    } else {
      assert idle - (todo - {ih}) == idle - todo;
    }
  }

  lemma ReapStart<R>(s: Snapshot<R>, timeout: int, now: int)
    ensures Forgotten(s, IdleKeys(s, timeout, now) - s.loaded) == s
  {
    assert IdleKeys(s, timeout, now) - s.loaded == {};
  }

  // ---------- invariants ----------

  /** The invariant, with the verifier free to use it for every infohash and every play. */
  lemma InvFacts<R>(s: Snapshot<R>)
    requires Inv(s)
    ensures forall k :: k in s.act ==> Counted(s, k)
    ensures forall r :: r in s.plays ==> Current(s, r)
  {
    forall k | k in s.act ensures Counted(s, k) {
    }
    forall r | r in s.plays ensures Current(s, r) {
    }
  }

  /** Taking records out of the map is safe as long as nobody reads them. */
  lemma ForgettingUnreadKeepsInv<R>(s: Snapshot<R>, gone: set<string>)
    requires Inv(s) && forall k :: k in gone && k in s.act ==> s.act[k].readers <= 0
    ensures Inv(Forgotten(s, gone))
  {
    InvFacts(s);
    var t := Forgotten(s, gone);
    forall r | r in t.plays ensures Current(t, r) {
      assert Current(s, r);
    }
  }

  lemma SweepKeepsInv<R>(s: Snapshot<R>, dropped: set<string>, removed: set<string>)
    requires Inv(s) && Sweeps(s, dropped, removed)
    ensures Inv(Swept(s, dropped, removed))
  {
    InvFacts(s);
    var t := Swept(s, dropped, removed);
    forall r | r in t.plays ensures Current(t, r) {
      assert Current(s, r);
    }
  }

  lemma TouchKeepsInv<R>(s: Snapshot<R>, ih: string, r: Ref<R>, now: int)
    requires Inv(s) && ih != "" && (ih !in s.act ==> r.infohash == ih)
    ensures Inv(Touched(s, ih, r, now))
  {
    InvFacts(s);
    var t := Touched(s, ih, r, now);
    forall q | q in t.plays ensures Current(t, q) {
      assert Current(s, q);
    }
  }

  /** Changing flags and times of a record leaves who holds what alone. */
  lemma MarkKeepsInv<R>(s: Snapshot<R>, t: Snapshot<R>, ih: string)
    requires Inv(s) && ih in s.act && ih in t.act
    requires t.act == s.act[ih := t.act[ih]]
    requires t.act[ih].record == s.act[ih].record && t.act[ih].readers == s.act[ih].readers
    requires t.plays == s.plays && t.locks <= s.locks + {ih} && t.loaded <= s.loaded + {ih}
    requires ih in t.loaded ==> !t.act[ih].adding
    ensures Inv(t)
  {
    InvFacts(s);
    forall q | q in t.plays ensures Current(t, q) {
      assert Current(s, q);
    }
  }

  /** Opening or closing a play moves a record's reader count and the plays together. */
  lemma CountKeepsInv<R>(s: Snapshot<R>, t: Snapshot<R>, ih: string)
    requires Inv(s) && ih in s.act && ih in t.act
    requires t.act == s.act[ih := t.act[ih]] && t.act[ih].record == s.act[ih].record
    requires t.act[ih].adding == s.act[ih].adding
    requires t.locks == s.locks && t.loaded == s.loaded
    requires t.plays == s.plays[s.act[ih].record := t.plays[s.act[ih].record]]
    requires t.act[ih].readers == t.plays[s.act[ih].record]
    ensures Inv(t)
  {
    InvFacts(s);
    forall q | q in t.plays ensures Current(t, q) {
      assert q == s.act[ih].record || Current(s, q);
    }
  }

  lemma BeginKeepsInv<R>(s: Snapshot<R>, ih: string, r: Ref<R>, now: int)
    requires Inv(s) && (ih !in s.act ==> r.infohash == ih)
    ensures Inv(Begun(s, ih, r, now))
  {
    InvFacts(s);
    if ValidInfohash(ih) {
      TouchKeepsInv(s, ih, r, now);
      MarkKeepsInv(Touched(s, ih, r, now), Begun(s, ih, r, now), ih);
    }
  }

  lemma OpenKeepsInv<R>(s: Snapshot<R>, ih: string, r: Ref<R>, now: int)
    requires Inv(s) && ih != "" && (ih !in s.act ==> r.infohash == ih)
    ensures Inv(Opened(s, ih, r, now))
  {
    InvFacts(s);
    TouchKeepsInv(s, ih, r, now);
    CountKeepsInv(Touched(s, ih, r, now), Opened(s, ih, r, now), ih);
  }

  lemma CloseKeepsInv<R>(s: Snapshot<R>, ih: string, now: int)
    requires Inv(s) && ih in s.act && s.act[ih].record in s.plays
    ensures Inv(Closed(s, ih, now))
  {
    InvFacts(s);
    CountKeepsInv(s, Closed(s, ih, now), ih);
  }

  lemma FinishKeepsInv<R>(s: Snapshot<R>, ih: string, accepted: bool)
    requires Inv(s) && ih in s.act
    ensures Inv(Finished(s, ih, accepted))
  {
    MarkKeepsInv(s, Finished(s, ih, accepted), ih);
  }

  lemma StepKeepsInv<R>(s: Snapshot<R>, e: Event<R>, t: Snapshot<R>)
    requires Inv(s) && Step(s, e, t)
    ensures Inv(t)
  {
    match e
    case Touch(ih, r, now) => TouchKeepsInv(s, ih, r, now);
    case BeginAdd(ih, r, now) => BeginKeepsInv(s, ih, r, now);
    case FinishAdd(ih, accepted) => FinishKeepsInv(s, ih, accepted);
    case Evict(ok, gone, victim) => ForgettingUnreadKeepsInv(s, gone);
    case Reap(timeout, now) => ForgettingUnreadKeepsInv(s, IdleKeys(s, timeout, now));
    case Sweep(dropped, removed) => SweepKeepsInv(s, dropped, removed);
    case Open(ih, r, now) => OpenKeepsInv(s, ih, r, now);
    case Close(ih, now) => CloseKeepsInv(s, ih, now);
  }

  lemma GivingUpKeepsPins<R>(s: Snapshot<R>, e: Event<R>, t: Snapshot<R>, k: string)
    requires Inv(s) && Step(s, e, t) && k in s.act && s.act[k].Pinned()
    requires e.Evict? || e.Reap? || e.Sweep?
    ensures k in t.act && t.act[k] == s.act[k] && (k in s.loaded ==> k in t.loaded)
  {
    InvFacts(s);
    match e
    case Evict(ok, gone, victim) => assert k in PinnedKeys(s);
    case Reap(timeout, now) => assert k !in IdleKeys(s, timeout, now);
    case Sweep(dropped, removed) => assert k !in dropped;
  }

  /** No step takes a pinned record out of the map or drops its torrent. */
  lemma StepKeepsPins<R>(s: Snapshot<R>, e: Event<R>, t: Snapshot<R>, k: string)
    requires Inv(s) && Step(s, e, t) && k in s.act && s.act[k].Pinned()
    ensures k in t.act && t.act[k].record == s.act[k].record && (k in s.loaded ==> k in t.loaded)
  {
    if e.Evict? || e.Reap? || e.Sweep? {
      GivingUpKeepsPins(s, e, t, k);
    }
  }

  // ---------- whole runs ----------

  ghost predicate IsRun<R>(states: seq<Snapshot<R>>, events: seq<Event<R>>) {
    && |states| == |events| + 1
    && forall i :: 0 <= i < |events| ==> Step(states[i], events[i], states[i + 1])
  }

  /** Every state of every run is consistent: loaded torrents and add locks have records,
      and each record counts exactly the open plays that hold it. */
  lemma {:induction false} RunKeepsInv<R>(states: seq<Snapshot<R>>, events: seq<Event<R>>, n: nat)
    requires IsRun(states, events) && n < |states| && Inv(states[0])
    ensures Inv(states[n])
  {
    if n > 0 {
      RunKeepsInv(states, events, n - 1);
      StepKeepsInv(states[n - 1], events[n - 1], states[n]);
    }
  }

  /** So from an empty engine on: what is loaded and what has a lock has a record, a record is filed under
      its own infohash and counts the plays that hold it, and a play's record is the one filed. */
  lemma RunIsConsistent<R>(states: seq<Snapshot<R>>, events: seq<Event<R>>, n: nat, k: string, r: Ref<R>)
    requires IsRun(states, events) && n < |states| && states[0] == Snapshot(map[], {}, {}, multiset{})
    ensures var s := states[n];
      && (k in s.loaded || k in s.locks ==> k in s.act)
      && (k in s.act ==> s.act[k].record.infohash == k && s.act[k].readers == s.plays[s.act[k].record])
      && (k in s.loaded ==> !s.act[k].adding)
      && (r in s.plays ==> r.infohash in s.act && s.act[r.infohash].record == r)
  {
    RunKeepsInv(states, events, n);
    InvFacts(states[n]);
  }

  /** A torrent that is loaded and being read stays loaded, under the same record, for as
      long as any play holds that record. */
  lemma {:induction false} ReadTorrentStays<R>(states: seq<Snapshot<R>>, events: seq<Event<R>>,
                                                    from: nat, to: nat, k: string, r: Ref<R>)
    requires IsRun(states, events) && Inv(states[0]) && from <= to < |states|
    requires k in states[from].loaded && k in states[from].act && states[from].act[k].record == r
    requires forall i :: from <= i < to ==> r in states[i].plays
    ensures k in states[to].loaded && k in states[to].act && states[to].act[k].record == r
  {
    if from < to {
      ReadTorrentStays(states, events, from, to - 1, k, r);
      RunKeepsInv(states, events, to - 1);
      InvFacts(states[to - 1]);
      StepKeepsPins(states[to - 1], events[to - 1], states[to], k);
    }
  }

  // ---------- a recent access protects ----------

  /** The event records an access to `k`. */
  predicate Accesses<R>(e: Event<R>, k: string) {
    (e.Touch? || e.BeginAdd? || e.Open? || e.Close?) && e.ih == k && (e.BeginAdd? ==> ValidInfohash(k))
  }

  /** The record of `k`, if there is one, was last accessed at `since` or later. */
  predicate AccessedSince<R>(s: Snapshot<R>, k: string, since: int) {
    k in s.act ==> since <= s.act[k].lastAccess
  }

  lemma RemovalKeepsAccess<R>(s: Snapshot<R>, e: Event<R>, t: Snapshot<R>, k: string, since: int)
    requires Step(s, e, t) && (e.Evict? || e.Reap? || e.Sweep?) && AccessedSince(s, k, since)
    ensures AccessedSince(t, k, since)
  {
  }

  lemma WriteKeepsAccess<R>(s: Snapshot<R>, e: Event<R>, t: Snapshot<R>, k: string, since: int)
    requires Step(s, e, t) && !e.Evict? && !e.Reap? && !e.Sweep? && (Accesses(e, k) ==> since <= e.now)
    requires AccessedSince(s, k, since) || Accesses(e, k)
    ensures AccessedSince(t, k, since)
  {
  }

  lemma StepKeepsAccess<R>(s: Snapshot<R>, e: Event<R>, t: Snapshot<R>, k: string, since: int)
    requires Step(s, e, t) && (Accesses(e, k) ==> since <= e.now)
    requires AccessedSince(s, k, since) || Accesses(e, k)
    ensures AccessedSince(t, k, since)
  {
    if e.Evict? || e.Reap? || e.Sweep? {
      RemovalKeepsAccess(s, e, t, k, since);
    } else {
      WriteKeepsAccess(s, e, t, k, since);
    }
  }

  lemma RunStepKeepsAccess<R>(states: seq<Snapshot<R>>, events: seq<Event<R>>, m: nat, k: string, since: int)
    requires IsRun(states, events) && m < |events| && (Accesses(events[m], k) ==> since <= events[m].now)
    requires AccessedSince(states[m], k, since) || Accesses(events[m], k)
    ensures AccessedSince(states[m + 1], k, since)
  {
    StepKeepsAccess(states[m], events[m], states[m + 1], k, since);
  }

  /** `events[i]` accesses `k`, and the clock does not go back on the accesses that follow. */
  ghost predicate LastSeen<R>(events: seq<Event<R>>, i: nat, j: nat, k: string, since: int) {
    && i < j <= |events|
    && Accesses(events[i], k) && events[i].now == since
    && forall m :: i < m < j && Accesses(events[m], k) ==> since <= events[m].now
  }

  lemma {:induction false} AccessIsRemembered<R>(states: seq<Snapshot<R>>, events: seq<Event<R>>,
                                                 i: nat, j: nat, k: string, since: int)
    requires IsRun(states, events) && LastSeen(events, i, j, k, since)
    ensures AccessedSince(states[j], k, since)
    decreases j
  {
    if i < j - 1 {
      AccessIsRemembered(states, events, i, j - 1, k, since);
    }
    RunStepKeepsAccess(states, events, j - 1, k, since);
  }

  /** Whoever touches, adds, opens or closes a torrent keeps `reapIdle` off it for the whole timeout
      from then on, read or not, and whatever happens in between: in no later state of the run is it
      among the torrents to drop, and a reap leaves it loaded. */
  lemma AccessDefersReap<R>(states: seq<Snapshot<R>>, events: seq<Event<R>>, i: nat, j: nat, k: string,
                            since: int, timeout: int, later: int)
    requires IsRun(states, events) && LastSeen(events, i, j, k, since)
    requires Since(later, since) <= timeout
    ensures k !in IdleKeys(states[j], timeout, later)
    ensures j < |events| && events[j] == Reap(timeout, later) && k in states[j].loaded ==>
      k in states[j + 1].loaded
  {
    AccessIsRemembered(states, events, i, j, k, since);
    if j < |events| && events[j] == Reap(timeout, later) {
      assert Step(states[j], events[j], states[j + 1]);
    }
  }

  /** A reap unloads exactly the loaded torrents nobody reads and nobody has used for longer than the
      timeout, and their records and locks with them; no other record or torrent changes. A timeout is a
      64-bit duration, and no time since the last use counts as longer than the longest. */
  lemma ReapTakesExactlyTheIdle<R>(s: Snapshot<R>, timeout: int, now: int, k: string)
    requires Inv(s) && -0x8000_0000_0000_0000 <= timeout
    ensures var t := Forgotten(s, IdleKeys(s, timeout, now));
      var idle := k in s.loaded && s.act[k].readers == 0 && now - s.act[k].lastAccess > timeout
                  && timeout < 0x7fff_ffff_ffff_ffff;
      && (k in t.loaded <==> k in s.loaded && !idle)
      && (k in t.act <==> k in s.act && !idle) && (k in t.act ==> t.act[k] == s.act[k])
      && (k in t.locks <==> k in s.locks && !idle)
  {
  }

  // ---------- what evictOldest's answer means ----------

  /** `evictOldest` succeeds exactly when some loaded torrent is neither read nor being added. */
  lemma EvictSucceedsIffSomeIdle<R>(s: Snapshot<R>, ok: bool, gone: set<string>, victim: string)
    requires Inv(s) && Evicts(s, ok, gone, victim)
    ensures ok <==> exists k :: k in s.loaded && !s.act[k].Pinned()
  {
    if ok {
      assert victim in gone * s.loaded;
      assert victim !in PinnedKeys(s);
    } else {
      forall k | k in s.loaded ensures s.act[k].Pinned() {
        assert k !in gone;
      }
    }
  }

  /** Success frees exactly one torrent, failure frees none. */
  lemma EvictFreesOneOrNone<R>(s: Snapshot<R>, ok: bool, gone: set<string>, victim: string)
    requires Evicts(s, ok, gone, victim)
    ensures |Forgotten(s, gone).loaded| == |s.loaded| - (if ok then 1 else 0)
    ensures !ok <==> Forgotten(s, gone).loaded == s.loaded
  {
    var loaded := Forgotten(s, gone).loaded;
    if ok {
      assert victim in gone * s.loaded;
      assert loaded == s.loaded - {victim};
    } else {
      assert loaded == s.loaded;
    }
  }

  // ---------- what ensure's answer means ----------

  datatype AddStatus =
    | Invalid     // not an infohash
    | Loaded      // the client holds it already
    | Waiting     // another add of the same infohash holds its lock
    | MustAdd     // this caller now holds the lock and must finish the add

  function StatusOf<R>(s: Snapshot<R>, ih: string): AddStatus {
    if !ValidInfohash(ih) then Invalid
    else if ih in s.loaded then Loaded
    else if ih in s.act && s.act[ih].adding then Waiting
    else MustAdd
  }

  datatype EnsureOutcome = BadInfohash | Ready | Blocked | TooMany | Refused

  /** Nobody reads or adds it. */
  predicate Idle<R>(s: Snapshot<R>, k: string) {
    k in s.act && s.act[k].readers <= 0 && !s.act[k].adding
  }

  /** There is room for one more torrent, or an idle one to give up for it. */
  predicate HasRoom<R>(s: Snapshot<R>, max: int) {
    max <= 0 || |s.loaded| < max || exists k :: k in s.loaded && Idle(s, k)
  }

  /** A loaded torrent used least recently of the idle ones. */
  predicate IsVictim<R>(s: Snapshot<R>, v: string) {
    && v in s.loaded && Idle(s, v)
    && forall k :: k in s.loaded && Idle(s, k) ==> s.act[v].lastAccess <= s.act[k].lastAccess
  }

  /** The capacity check gave up the records `gone`, none of them pinned, and of the torrents at most
      one; it fails exactly when there is no room to be had. */
  ghost predicate MakesRoom<R>(s: Snapshot<R>, max: int, ok: bool, gone: set<string>) {
    && gone !! PinnedKeys(s)
    && (ok <==> HasRoom(s, max))
    && (if 0 < max <= |s.loaded| && ok then exists v :: IsVictim(s, v) && s.loaded - gone == s.loaded - {v}
        else s.loaded - gone == s.loaded)
    && (!(0 < max <= |s.loaded|) ==> gone == {})
    && (ok ==> OldestFirst(s, gone))
    && (!ok ==> forall k :: Idle(s, k) ==> k in gone)
  }

  /** No record newer than the torrent given up went, and no idle record older than that stayed. */
  ghost predicate OldestFirst<R>(s: Snapshot<R>, gone: set<string>) {
    gone != {} ==> forall k, v :: k in s.act && IsVictim(s, v) ==>
      && (k in gone ==> s.act[k].lastAccess <= s.act[v].lastAccess)
      && (k !in gone && Idle(s, k) ==> s.act[v].lastAccess <= s.act[k].lastAccess)
  }

  lemma RoomAlready<R>(s: Snapshot<R>, max: int)
    requires max <= 0 || |s.loaded| < max
    ensures MakesRoom(s, max, true, {}) && Forgotten(s, {}) == s
  {
    assert s.loaded - {} == s.loaded;
  }

  lemma RoomByEviction<R>(s: Snapshot<R>, max: int, ok: bool, gone: set<string>, victim: string)
    requires Inv(s) && 0 < max <= |s.loaded| && Evicts(s, ok, gone, victim)
    ensures MakesRoom(s, max, ok, gone)
  {
    EvictSucceedsIffSomeIdle(s, ok, gone, victim);
    InvFacts(s);
    if ok {
      assert victim in gone * s.loaded;
      assert s.loaded - gone == s.loaded - {victim};
      assert victim !in PinnedKeys(s);
      forall k | k in s.loaded && Idle(s, k) ensures s.act[victim].lastAccess <= s.act[k].lastAccess {
        assert k !in PinnedKeys(s);
        assert k in gone ==> k in gone * s.loaded;
      }
      assert IsVictim(s, victim);
      forall v | IsVictim(s, v) ensures s.act[v].lastAccess == s.act[victim].lastAccess {
      }
    }
    forall k | Idle(s, k) ensures k !in PinnedKeys(s) {
    }
  }

  /** From a state in which `ih` is marked, `ensure` makes room and finishes the add. */
  ghost predicate Completes<R>(s: Snapshot<R>, max: int, ih: string, accepted: bool,
                               outcome: EnsureOutcome, gone: set<string>, t: Snapshot<R>) {
    exists ok :: (MakesRoom(s, max, ok, gone) && ih in s.act.Keys - gone
      && outcome == (if !ok then TooMany else if accepted then Ready else Refused)
      && t == Finished(Forgotten(s, gone), ih, outcome == Ready))
  }

  /** Another add of this torrent is under way. */
  predicate InFlight<R>(s: Snapshot<R>, ih: string) {
    ih !in s.loaded && ih in s.act && s.act[ih].adding
  }

  /** Which answer a caller of `ensure` gets, by what it found. */
  ghost predicate Answers<R>(s: Snapshot<R>, max: int, ih: string, accepted: bool, outcome: EnsureOutcome) {
    var adds := ValidInfohash(ih) && ih !in s.loaded && !InFlight(s, ih);
    && (outcome == BadInfohash <==> !ValidInfohash(ih))
    && (outcome == Blocked <==> ValidInfohash(ih) && InFlight(s, ih))
    && (outcome == TooMany <==> adds && !HasRoom(s, max))
    && (outcome == Refused <==> adds && HasRoom(s, max) && !accepted)
    && (outcome == Ready <==> (ValidInfohash(ih) && ih in s.loaded) || (adds && HasRoom(s, max) && accepted))
  }

  /** Which torrents are loaded afterwards: a full client gives one up for the new one, which it may
      then refuse. */
  ghost predicate Loads<R>(s: Snapshot<R>, max: int, ih: string, outcome: EnsureOutcome, loaded: set<string>) {
    var mine := if outcome == Ready then {ih} else {};
    if ih in s.loaded || (outcome != Ready && outcome != Refused) then loaded == s.loaded
    else if 0 < max <= |s.loaded| then exists v :: IsVictim(s, v) && loaded == s.loaded - {v} + mine
    else loaded == s.loaded + mine
  }

  /** What becomes of the records: the torrent's own shows the access, and is marked only while another
      add holds it; of the others only idle ones go, and only from a full client. */
  ghost predicate Keeps<R>(s: Snapshot<R>, max: int, ih: string, now: int, outcome: EnsureOutcome, t: Snapshot<R>) {
    && ih in t.act && t.act[ih].lastAccess == now && (t.act[ih].adding <==> outcome == Blocked)
    && t.act[ih].readers == (if ih in s.act then s.act[ih].readers else 0)
    && (ih !in s.loaded ==> ih in t.locks)
    && (forall k :: k in t.act && k != ih ==> k in s.act && t.act[k] == s.act[k])
    && (forall k :: k in s.act && !Idle(s, k) ==> k in t.act)
    && (!(0 < max <= |s.loaded|) ==> s.act.Keys <= t.act.Keys)
  }

  /** Which idle records went from a full client: those older than the torrent given up, and none newer;
      all of them when there was no torrent to give up. */
  ghost predicate GivesUp<R>(s: Snapshot<R>, ih: string, outcome: EnsureOutcome, t: Snapshot<R>) {
    && (outcome == TooMany ==> forall k :: k != ih && Idle(s, k) ==> k !in t.act)
    && (!(s.loaded <= t.loaded) ==> GoneByAge(s, ih, t))
  }

  ghost predicate GoneByAge<R>(s: Snapshot<R>, ih: string, t: Snapshot<R>) {
    forall k, v :: k in s.act && k != ih && IsVictim(s, v) ==>
      && (k !in t.act ==> s.act[k].lastAccess <= s.act[v].lastAccess)
      && (k in t.act && Idle(s, k) ==> s.act[v].lastAccess <= s.act[k].lastAccess)
  }

  /** What a caller of `ensure` may rely on. */
  ghost predicate Ensures<R>(s: Snapshot<R>, max: int, ih: string, now: int, accepted: bool,
                             outcome: EnsureOutcome, t: Snapshot<R>) {
    && Answers(s, max, ih, accepted, outcome)
    && Loads(s, max, ih, outcome, t.loaded)
    && (if ValidInfohash(ih) then Keeps(s, max, ih, now, outcome, t) else t == s)
    && GivesUp(s, ih, outcome, t)
  }

  /** So the client never ends above its limit or where it was, and a torrent that is read stays. */
  lemma EnsureStaysWithinLimit<R>(s: Snapshot<R>, max: int, ih: string, now: int, accepted: bool,
                                  outcome: EnsureOutcome, t: Snapshot<R>)
    requires Inv(s) && Ensures(s, max, ih, now, accepted, outcome, t)
    ensures max > 0 ==> |t.loaded| <= Max(max, |s.loaded|)
    ensures outcome == Ready ==> ih in t.loaded
    ensures outcome == TooMany ==> 0 < max <= |s.loaded| && forall k :: k in s.loaded ==> s.act[k].readers > 0
    ensures forall k :: k in s.loaded && s.act[k].readers > 0 ==> k in t.loaded
  {
    InvFacts(s);
    if v :| IsVictim(s, v) && t.loaded <= s.loaded - {v} + {ih} {
      SubsetSize(t.loaded, s.loaded - {v} + {ih});
    }
  }

  lemma EnsureDoesNotAdd<R>(s: Snapshot<R>, max: int, ih: string, r: Ref<R>, now: int, accepted: bool)
    requires Inv(s) && StatusOf(s, ih) != MustAdd
    ensures var outcome := match StatusOf(s, ih) case Invalid => BadInfohash case Loaded => Ready case _ => Blocked;
            Ensures(s, max, ih, now, accepted, outcome, Begun(s, ih, r, now))
  {
    InvFacts(s);
  }

  /** Marking an add of a torrent that is not loaded changes no other record. */
  lemma MarkingPinsNothingElse<R>(s: Snapshot<R>, ih: string, r: Ref<R>, now: int)
    requires Inv(s) && StatusOf(s, ih) == MustAdd
    ensures var b := Begun(s, ih, r, now);
      && b.loaded == s.loaded
      && (forall k :: k != ih ==> (Idle(b, k) <==> Idle(s, k)) && (k in s.act <==> k in b.act))
      && (forall k :: k in s.loaded ==> k in s.act && b.act[k] == s.act[k])
  {
    InvFacts(s);
  }

  lemma SameRoom<R>(s: Snapshot<R>, b: Snapshot<R>, max: int)
    requires b.loaded == s.loaded && forall k :: k in s.loaded ==> k in s.act && k in b.act && b.act[k] == s.act[k]
    ensures HasRoom(s, max) <==> HasRoom(b, max)
    ensures forall v :: IsVictim(s, v) <==> IsVictim(b, v)
  {
    forall k | k in s.loaded ensures Idle(s, k) <==> Idle(b, k) {
    }
  }

  lemma AddLoads<R>(s: Snapshot<R>, b: Snapshot<R>, max: int, ih: string, ok: bool, outcome: EnsureOutcome,
                    gone: set<string>)
    requires b.loaded == s.loaded && (forall v :: IsVictim(s, v) <==> IsVictim(b, v)) && ih !in s.loaded
    requires MakesRoom(b, max, ok, gone) && ok == (outcome == Ready || outcome == Refused)
    ensures Loads(s, max, ih, outcome, if outcome == Ready then b.loaded - gone + {ih} else b.loaded - gone)
  {
    if v :| IsVictim(b, v) && b.loaded - gone == b.loaded - {v} {
      assert IsVictim(s, v);
    }
  }

  /** What is read or added is pinned, also once the new add is marked. */
  lemma BusyIsPinned<R>(s: Snapshot<R>, ih: string, r: Ref<R>, now: int, k: string)
    requires StatusOf(s, ih) == MustAdd && k in s.act && !Idle(s, k)
    ensures k in PinnedKeys(Begun(s, ih, r, now))
  {
    assert Begun(s, ih, r, now).act[k].Pinned();
  }

  lemma MarkedRecord<R>(s: Snapshot<R>, ih: string, r: Ref<R>, now: int, gone: set<string>, loads: bool)
    requires StatusOf(s, ih) == MustAdd && ih !in gone
    ensures var b := Begun(s, ih, r, now);
      var t := Finished(Forgotten(b, gone), ih, loads);
      && ih in t.act && t.act[ih].lastAccess == now && !t.act[ih].adding && ih in t.locks
      && t.act[ih].readers == (if ih in s.act then s.act[ih].readers else 0)
      && t.act.Keys == s.act.Keys - gone + {ih}
      && forall k :: k in t.act && k != ih ==> t.act[k] == s.act[k]
  {
  }

  lemma AddKeeps<R>(s: Snapshot<R>, max: int, ih: string, r: Ref<R>, now: int, ok: bool, outcome: EnsureOutcome,
                    gone: set<string>, t: Snapshot<R>)
    requires StatusOf(s, ih) == MustAdd && outcome != Blocked
    requires MakesRoom(Begun(s, ih, r, now), max, ok, gone) && ih !in gone
    requires t == Finished(Forgotten(Begun(s, ih, r, now), gone), ih, outcome == Ready)
    ensures Keeps(s, max, ih, now, outcome, t)
  {
    MarkedRecord(s, ih, r, now, gone, outcome == Ready);
    forall k | k in s.act && !Idle(s, k) ensures k in t.act {
      BusyIsPinned(s, ih, r, now, k);
    }
  }

  lemma AddGivesUp<R>(s: Snapshot<R>, b: Snapshot<R>, max: int, ih: string, ok: bool, outcome: EnsureOutcome,
                      gone: set<string>, t: Snapshot<R>)
    requires MakesRoom(b, max, ok, gone) && ok == (outcome == Ready || outcome == Refused) && ih !in s.loaded
    requires forall v :: IsVictim(s, v) <==> IsVictim(b, v)
    requires forall k :: k != ih ==> (Idle(b, k) <==> Idle(s, k)) && (k in s.act <==> k in b.act)
    requires forall k :: k != ih && k in s.act ==> b.act[k] == s.act[k]
    requires t.act.Keys == s.act.Keys - gone + {ih} && s.loaded - gone <= t.loaded
    ensures GivesUp(s, ih, outcome, t)
  {
    if outcome != TooMany && !(s.loaded <= t.loaded) {
      AgesCarryOver(s, b, ih, gone, t);
    }
  }

  lemma AgesCarryOver<R>(s: Snapshot<R>, b: Snapshot<R>, ih: string, gone: set<string>, t: Snapshot<R>)
    requires OldestFirst(b, gone) && gone != {}
    requires forall v :: IsVictim(s, v) <==> IsVictim(b, v)
    requires forall k :: k != ih ==> (Idle(b, k) <==> Idle(s, k)) && (k in s.act <==> k in b.act)
    requires forall k :: k != ih && k in s.act ==> b.act[k] == s.act[k]
    requires forall k :: k != ih && k in s.act ==> (k in t.act <==> k !in gone)
    requires ih !in s.loaded
    ensures GoneByAge(s, ih, t)
  {
    forall k, v | k in s.act && k != ih && IsVictim(s, v)
      ensures (k !in t.act ==> s.act[k].lastAccess <= s.act[v].lastAccess)
           && (k in t.act && Idle(s, k) ==> s.act[v].lastAccess <= s.act[k].lastAccess)
    {
      assert IsVictim(b, v) && v != ih && k in b.act;
    }
  }

  lemma EnsureAdds<R>(s: Snapshot<R>, max: int, ih: string, r: Ref<R>, now: int, accepted: bool,
                      outcome: EnsureOutcome, gone: set<string>, t: Snapshot<R>)
    requires Inv(s) && StatusOf(s, ih) == MustAdd
    requires Completes(Begun(s, ih, r, now), max, ih, accepted, outcome, gone, t)
    ensures Ensures(s, max, ih, now, accepted, outcome, t)
  {
    var b := Begun(s, ih, r, now);
    var ok :| MakesRoom(b, max, ok, gone) && outcome == (if !ok then TooMany else if accepted then Ready else Refused);
    MarkingPinsNothingElse(s, ih, r, now);
    SameRoom(s, b, max);
    AddLoads(s, b, max, ih, ok, outcome, gone);
    AddKeeps(s, max, ih, r, now, ok, outcome, gone, t);
    MarkedRecord(s, ih, r, now, gone, outcome == Ready);
    AddGivesUp(s, b, max, ih, ok, outcome, gone, t);
  }
}
