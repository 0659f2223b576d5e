/** The torrent engine's bookkeeping (engine.go) and the cache sweep that shares it
    (cache.go). The torrent client is reduced to the set of infohashes it holds. Each
    method is one step: what the source decides and does under one lock, or decides and
    then does, is not interleaved with other steps. */
module Engine {
  import opened Basics
  import opened CachePlan
  import opened Accounting
  import opened EngineState
  import opened Sweep

  /** A torrent's activity record. Open plays keep a reference to it. */
  class Activity {
    ghost const infohash: string
    var readers: int
    var adding: bool
    var lastAccess: int

    constructor (ghost infohash: string, now: int)
      ensures this.infohash == infohash && readers == 0 && !adding && lastAccess == now
    {
      this.infohash := infohash;
      readers, adding, lastAccess := 0, false, now;
    }

    ghost function AsRef(): Ref<object> {
      Ref(infohash, this)
    }

    ghost function View(): View<object>
      reads this
    {
      EngineState.View(AsRef(), readers, adding, lastAccess)
    }
  }

  class Engine {
    const maxTorrents: int
    var idleTimeout: int
    var maxCacheBytes: int
    const reserveBytes: int
    const graceFor: int
    const retainFor: int

    var act: map<string, Activity>
    var addLocks: set<string>
    var loaded: set<string>
    var evictedBytes: int
    var evictedCount: int
    var stats: CacheStats

    /** The records this engine may write, and one occurrence per open play of the record
        it holds. */
    ghost var records: set<Activity>
    ghost var plays: multiset<Ref<object>>

    ghost predicate Owned()
      reads this`act, this`records
    {
      forall k :: k in act ==> act[k] in records && act[k].infohash == k
    }

    /** The abstract state: records by value, keyed by infohash. */
    ghost function Snap(): Snapshot<object>
      reads this`act, this`records, this`addLocks, this`loaded, this`plays, records
      requires Owned()
    {
      Snapshot(map k | k in act :: act[k].View(), addLocks, loaded, plays)
    }

    ghost predicate Valid()
      reads this`act, this`records, this`addLocks, this`loaded, this`plays, records
    {
      Owned() && Inv(Snap())
    }

    constructor (maxTorrents: int, idleTimeout: int, maxCacheBytes: int, reserveBytes: int,
                 graceFor: int, retainFor: int)
      ensures Valid() && fresh(records)
      ensures Snap() == Snapshot(map[], {}, {}, multiset{})
      ensures this.maxTorrents == maxTorrents
    {
      this.maxTorrents, this.idleTimeout, this.maxCacheBytes := maxTorrents, idleTimeout, maxCacheBytes;
      this.reserveBytes, this.graceFor, this.retainFor := reserveBytes, graceFor, retainFor;
      act, addLocks, loaded := map[], {}, {};
      evictedBytes, evictedCount := 0, 0;
      stats := CacheStats(Totals(0, 0, 0, 0, 0), 0, 0, 0, 0, 0, 0);
      records, plays := {}, multiset{};
    }

    /** Distinct infohashes have distinct records, so writing the record of `ih` changes
        the abstract state at `ih` only. */
    twostate lemma OneRecordChanged(ih: string)
      requires old(Owned()) && Owned()
      requires ih in act && act == old(act)[ih := act[ih]]
      requires ih in old(act) ==> act[ih] == old(act[ih])
      requires forall a :: a in old(records) && a != act[ih] ==> unchanged(a)
      ensures Snap().act == old(Snap()).act[ih := act[ih].View()]
    {
      forall k | k in act && k != ih ensures Snap().act[k] == old(Snap()).act[k] {
        assert k in old(act) && act[k] == old(act[k]) && act[k] in old(records);
        assert act[k].infohash == k;
      }
    }

    /** The statistics are no part of the abstract state. */
    twostate lemma StatsAreSeparate()
      requires old(Owned())
      requires act == old(act) && records == old(records) && plays == old(plays)
      requires addLocks == old(addLocks) && loaded == old(loaded)
      requires forall a :: a in records ==> unchanged(a)
      ensures Owned() && Snap() == old(Snap())
    {
      forall k | k in act ensures act[k].View() == old(act[k].View()) {
      }
    }

    /** `activity`: the record of an infohash, created on first use. */
    method GetActivity(ih: string, now: int) returns (a: Activity)
      modifies this`act, this`records
      ensures act == old(act)[ih := a]
      ensures ih in old(act) ==> a == old(act)[ih] && records == old(records)
      ensures ih !in old(act) ==> fresh(a) && records == old(records) + {a}
      ensures ih !in old(act) ==> a.infohash == ih && a.readers == 0 && !a.adding && a.lastAccess == now
    {
      if ih in act {
        a := act[ih];
      } else {
        a := new Activity(ih, now);
        act := act[ih := a];
        records := records + {a};
      }
    }

    /** `touch`: every path that may read a torrent's bytes records the access. */
    method Touch(ih: string, now: int) returns (a: Activity)
      requires Valid() && ih != ""
      modifies this`act, this`records, records
      ensures Valid() && old(records) <= records && fresh(records - old(records))
      ensures ih in act && a == act[ih]
      ensures Snap() == Touched(old(Snap()), ih, a.AsRef(), now)
    {
      ghost var s := Snap();
      a := GetActivity(ih, now);
      a.lastAccess := now;
      OneRecordChanged(ih);
      assert a.View() == Accessed(s, ih, a.AsRef(), now);
      TouchKeepsInv(s, ih, a.AsRef(), now);
    }

    /** The part of `ensure` before the capacity check: record the access, look the
        torrent up, take the add lock and mark the add in flight. */
    method BeginAdd(ih: string, now: int) returns (status: AddStatus, ghost r: Ref<object>)
      requires Valid()
      modifies this`act, this`records, this`addLocks, records
      ensures Valid() && old(records) <= records && fresh(records - old(records))
      ensures status == StatusOf(old(Snap()), ih)
      ensures r.infohash == ih && Snap() == Begun(old(Snap()), ih, r, now)
      ensures status == MustAdd ==> ih in act && act[ih].adding
    {
      ghost var s := Snap();
      if !ValidInfohash(ih) {
        return Invalid, Ref(ih, this); // nothing is recorded
      }
      var a := GetActivity(ih, now);
      r := a.AsRef();
      a.lastAccess := now;
      if ih in loaded {
        OneRecordChanged(ih);
        assert Snap() == Touched(s, ih, r, now);
        TouchKeepsInv(s, ih, r, now);
        return Loaded, r;
      }
      addLocks := addLocks + {ih};
      status := if a.adding then Waiting else MustAdd;
      a.adding := true;
      OneRecordChanged(ih);
      assert Snap() == Begun(s, ih, r, now);
      BeginKeepsInv(s, ih, r, now);
    }

    /** The end of `ensure`: hand the magnet to the client, which may refuse it, and clear
        the in-flight mark. */
    method FinishAdd(ih: string, accepted: bool)
      requires Valid() && ih in act && act[ih].adding
      modifies this`loaded, records
      ensures Valid() && Snap() == Finished(old(Snap()), ih, accepted)
    {
      ghost var s := Snap();
      if accepted {
        loaded := loaded + {ih};
      }
      act[ih].adding := false;
      OneRecordChanged(ih);
      assert Snap() == Finished(s, ih, accepted);
      FinishKeepsInv(s, ih, accepted);
    }

    /** A play fetches its record and counts itself in. */
    method OpenPlay(ih: string, now: int) returns (a: Activity)
      requires Valid() && ih != ""
      modifies this`act, this`records, this`plays, records
      ensures Valid() && old(records) <= records && fresh(records - old(records))
      ensures ih in act && a == act[ih] && a.AsRef() in plays
      ensures Snap() == Opened(old(Snap()), ih, a.AsRef(), now)
    {
      ghost var s := Snap();
      a := GetActivity(ih, now);
      a.readers := a.readers + 1;
      a.lastAccess := now;
      plays := plays + multiset{a.AsRef()};
      OneRecordChanged(ih);
      ghost var v := Accessed(s, ih, a.AsRef(), now);
      assert a.View() == v.(readers := v.readers + 1);
      assert Snap() == Opened(s, ih, a.AsRef(), now);
      OpenKeepsInv(s, ih, a.AsRef(), now);
    }

    /** The play holding `a` ends. All it has is the record; that the record is still the
        one filed under its infohash is part of the invariant. */
    method ClosePlay(a: Activity, now: int)
      requires Valid() && a.AsRef() in plays
      modifies this`plays, records
      ensures Valid() && Current(old(Snap()), a.AsRef())
      ensures Snap() == Closed(old(Snap()), a.infohash, now) && a.readers == old(a.readers) - 1 >= 0
    {
      ghost var s := Snap();
      assert Current(s, a.AsRef()) && Counted(s, a.infohash);
      a.readers := a.readers - 1;
      a.lastAccess := now;
      plays := plays - multiset{a.AsRef()};
      OneRecordChanged(a.infohash);
      assert Snap() == Closed(s, a.infohash, now);
      CloseKeepsInv(s, a.infohash, now);
    }

    /** The inner loop of `evictOldest`. */
    method PickOldest() returns (oldest: string)
      requires Owned() && "" !in act
      ensures oldest == "" ==> act.Keys == PinnedKeys(Snap())
      ensures oldest != "" ==> IsOldest(Snap(), oldest)
    {
      ghost var s := Snap();
      oldest := "";
      var when := 0;
      var todo := act.Keys;
      while todo != {}
        invariant todo <= act.Keys
        invariant oldest == "" ==> forall k :: k in s.act.Keys - todo ==> s.act[k].Pinned()
        invariant oldest != "" ==> oldest in s.act && !s.act[oldest].Pinned() && when == s.act[oldest].lastAccess
        invariant oldest != "" ==>
          forall k :: k in s.act.Keys - todo && !s.act[k].Pinned() ==> when <= s.act[k].lastAccess
        decreases |todo|
      {
        var ih :| ih in todo;
        todo := todo - {ih};
        var a := act[ih];
        if a.readers > 0 || a.adding {
          continue;
        }
        if oldest == "" || a.lastAccess < when {
          oldest, when := ih, a.lastAccess;
        }
      }
    }

    /** Delete the record and the add lock of `ih`, and drop its torrent if the client
        holds one. */
    method Forget(ih: string) returns (dropped: bool)
      requires Owned() && ih in act
      modifies this`act, this`addLocks, this`loaded
      ensures Owned() && Snap() == Forgotten(old(Snap()), {ih})
      ensures dropped == (ih in old(loaded)) && act.Keys == old(act).Keys - {ih}
    {
      act := act - {ih};
      addLocks := addLocks - {ih};
      dropped := ih in loaded;
      loaded := loaded - {ih};
    }

    /** `evictOldest`: give up unpinned records, oldest first, until that frees a torrent. */
    method EvictOldest() returns (ok: bool, ghost gone: set<string>, ghost victim: string)
      requires Valid()
      modifies this`act, this`addLocks, this`loaded
      ensures Valid() && Evicts(old(Snap()), ok, gone, victim) && Snap() == Forgotten(old(Snap()), gone)
    {
      ghost var s := Snap();
      gone, victim := {}, "";
      while true
        invariant Owned() && Snap() == Forgotten(s, gone) && "" !in act
        invariant EvictsSoFar(s, gone, victim)
        decreases act.Keys
      {
        var oldest := PickOldest();
        if oldest == "" {
          EvictNoMore(s, gone, victim);
          ForgettingUnreadKeepsInv(s, gone);
          return false, gone, "";
        }
        EvictOneMore(s, gone, victim, oldest);
        assert oldest in Snap().act && oldest !in PinnedKeys(Snap());
        var dropped := Forget(oldest);
        gone, victim := gone + {oldest}, oldest;
        if !dropped {
          continue;
        }
        ForgettingUnreadKeepsInv(s, gone);
        return true, gone, victim;
      }
    }

    /** The capacity check of `ensure`: a full client must give up a torrent first. */
    method MakeRoom() returns (ok: bool, ghost gone: set<string>)
      requires Valid()
      modifies this`act, this`addLocks, this`loaded
      ensures Valid() && MakesRoom(old(Snap()), maxTorrents, ok, gone) && Snap() == Forgotten(old(Snap()), gone)
    {
      ghost var s := Snap();
      if maxTorrents > 0 && |loaded| >= maxTorrents {
        ghost var victim;
        ok, gone, victim := EvictOldest();
        RoomByEviction(s, maxTorrents, ok, gone, victim);
      } else {
        RoomAlready(s, maxTorrents);
        ok, gone := true, {};
      }
    }

    /** The rest of `ensure` for the caller that marked the add: make room, or fail; then
        hand over the magnet. `accepted` is the client's answer to it. */
    method CompleteAdd(ih: string, accepted: bool) returns (outcome: EnsureOutcome, ghost gone: set<string>)
      requires Valid() && ih in act && act[ih].adding
      modifies this`act, this`addLocks, this`loaded, records
      ensures Valid() && Completes(old(Snap()), maxTorrents, ih, accepted, outcome, gone, Snap())
    {
      assert ih in PinnedKeys(Snap());
      var ok;
      ok, gone := MakeRoom();
      assert ih in Snap().act && Snap().act[ih].adding;
      outcome := if !ok then TooMany else if accepted then Ready else Refused;
      FinishAdd(ih, outcome == Ready);
    }

    /** `ensure` run through without interruption. */
    method Ensure(ih: string, now: int, accepted: bool) returns (outcome: EnsureOutcome)
      requires Valid()
      modifies this`act, this`records, this`addLocks, this`loaded, records
      ensures Valid() && Ensures(old(Snap()), maxTorrents, ih, now, accepted, outcome, Snap())
    {
      ghost var s := Snap();
      var status, a := BeginAdd(ih, now);
      if status == MustAdd {
        ghost var gone;
        outcome, gone := CompleteAdd(ih, accepted);
        EnsureAdds(s, maxTorrents, ih, a, now, accepted, outcome, gone, Snap());
      } else {
        EnsureDoesNotAdd(s, maxTorrents, ih, a, now, accepted);
        outcome := match status case Invalid => BadInfohash case Loaded => Ready case _ => Blocked;
      }
    }

    /** The body of the loop in `reapIdle`. */
    method ReapOne(ih: string, now: int)
      requires Owned() && ih in act
      modifies this`act, this`addLocks, this`loaded
      ensures Owned() && Snap() == ReapedOne(old(Snap()), ih, idleTimeout, now)
    {
      var a := act[ih];
      if a.readers == 0 && Since(now, a.lastAccess) > idleTimeout {
        var _ := Forget(ih);
      }
    }

    /** `reapIdle`: drop every torrent nobody reads and nobody has touched for longer than
        the idle timeout. */
    method ReapIdle(now: int)
      requires Valid()
      modifies this`act, this`addLocks, this`loaded
      ensures Valid() && Snap() == Forgotten(old(Snap()), IdleKeys(old(Snap()), idleTimeout, now))
    {
      ghost var s := Snap();
      ghost var idle := IdleKeys(s, idleTimeout, now);
      var todo := loaded;
      ReapStart(s, idleTimeout, now);
      while todo != {}
        invariant Owned() && Snap() == Forgotten(s, idle - todo)
        invariant todo <= s.loaded
        decreases |todo|
      {
        var ih :| ih in todo;
        ReapNext(s, todo, ih, idleTimeout, now);
        assert ih in Snap().act;
        ReapOne(ih, now);
        todo := todo - {ih};
      }
      assert idle - todo == idle;
      ForgettingUnreadKeepsInv(s, idle);
    }

    // ---------- the cache sweep ----------

    /** The first loop of `sweepCache`: totals over everything on disk, and one unit per
        entry that is not waiting for its metadata. */
    method Scan(entries: seq<Entry>, owned: set<string>, pending: set<string>)
      returns (units: seq<Unit>, used: int, partialBytes: int, orphanBytes: int, orphanCount: int, ownedCount: int)
      requires Owned() && pending !! owned
      ensures units == Candidates(Snap(), owned, pending, entries)
      ensures used == OnDisk(entries) && partialBytes == Sum(entries, {}, PartialBytes())
      ensures orphanBytes == Sum(entries, {}, OrphanBytes(owned + pending))
      ensures orphanCount == Sum(entries, {}, OrphanCount(owned + pending))
      ensures ownedCount == Sum(entries, {}, OwnedCount(owned))
    {
      units, used, partialBytes, orphanBytes, orphanCount, ownedCount := [], 0, 0, 0, 0, 0;
      for i := 0 to |entries|
        invariant units == Candidates(Snap(), owned, pending, entries[..i])
        invariant used == Sum(entries[..i], {}, Bytes()) && partialBytes == Sum(entries[..i], {}, PartialBytes())
        invariant orphanBytes == Sum(entries[..i], {}, OrphanBytes(owned + pending))
        invariant orphanCount == Sum(entries[..i], {}, OrphanCount(owned + pending))
        invariant ownedCount == Sum(entries[..i], {}, OwnedCount(owned))
      {
        var en := entries[i];
        assert entries[..i + 1][..i] == entries[..i];
        CandidatesNext(Snap(), owned, pending, entries, i);
        used := used + en.bytes;
        if en.partial {
          partialBytes := partialBytes + en.bytes;
        }
        var u := Unit(en, "", false, 0, en.mod);
        if en.name in owned {
          u := u.(loaded := true, infohash := en.name);
          ownedCount := ownedCount + 1;
          if en.name in act {
            var a := act[en.name];
            u := u.(readers := a.readers, lastUse := if a.lastAccess > u.lastUse then a.lastAccess else u.lastUse);
          }
        } else if en.name in pending {
          continue;
        } else {
          orphanCount := orphanCount + 1;
          orphanBytes := orphanBytes + en.bytes;
        }
        units := units + [u];
      }
      assert entries[..|entries|] == entries;
    }

    /** The engine's side of deleting a unit: drop its torrent, and once the files are gone
        forget its record and add lock. */
    method GiveUp(u: Unit, failed: bool)
      requires Owned() && (u.loaded <==> u.infohash != "")
      modifies this`act, this`addLocks, this`loaded
      ensures Owned()
      ensures Snap() == if u.loaded then Swept(old(Snap()), {u.infohash}, if failed then {} else {u.infohash})
                        else old(Snap())
    {
      if u.loaded {
        loaded := loaded - {u.infohash};
      }
      if !failed && u.infohash != "" {
        act := act - {u.infohash};
        addLocks := addLocks - {u.infohash};
      }
    }

    /** The second loop of `sweepCache`: carry the plan out. Removing the files of an entry
        named in `fails` does not succeed, but its torrent has been dropped by then. */
    method ApplyPlan(plan: seq<Decision>, fails: set<string>, ghost owned: set<string>,
                     ghost pending: set<string>, ghost entries: seq<Entry>)
      returns (r: Reclaimed)
      requires Owned() && UniqueEntries(entries) && pending !! owned
      requires (forall e :: e in entries ==> e.name != "") && PlanFits(Snap(), owned, pending, entries, plan)
      modifies this`act, this`addLocks, this`loaded
      ensures Owned() && Snap() == Applied(old(Snap()), owned, plan, fails)
      ensures Accounts(entries, owned + pending, Gone(plan, fails), r)
    {
      ghost var s := Snap();
      r := Reclaimed(0, 0, 0, 0, 0);
      NothingApplied(s, owned, plan, fails, entries, pending);
      for i := 0 to |plan|
        invariant Owned() && Snap() == Applied(s, owned, plan[..i], fails)
        invariant Accounts(entries, owned + pending, Gone(plan[..i], fails), r)
      {
        var u := plan[i].unit;
        AppliedNext(s, owned, plan, fails, i);
        AccountsApplied(s, owned, pending, entries, plan, fails, i, r);
        PlannedUnit(s, owned, pending, entries, plan, i);
        GiveUp(u, u.entry.name in fails);
        if u.entry.name in fails {
          continue;
        }
        if u.infohash == "" {
          r := r.(orphans := r.orphans + 1, orphanBytes := r.orphanBytes + u.entry.bytes);
        }
        if u.entry.partial {
          r := r.(partialBytes := r.partialBytes + u.entry.bytes);
        }
        r := r.(bytes := r.bytes + u.entry.bytes, count := r.count + 1);
      }
      assert plan[..|plan|] == plan;
    }

    function CachePolicy(now: int): Policy
      reads this`maxCacheBytes
    {
      Policy(maxCacheBytes, reserveBytes, graceFor, retainFor, now)
    }

    /** `sweepCache` up to its statistics: scan, plan, and carry the plan out. */
    method ScanAndReclaim(entries: seq<Entry>, owned: set<string>, pending: set<string>,
                          free: int, now: int, fails: set<string>)
      returns (totals: Totals, ownedCount: int, r: Reclaimed, ghost plan: seq<Decision>, ghost ordered: seq<Unit>)
      requires Valid() && owned <= loaded && owned !! pending
      requires UniqueEntries(entries) && forall e :: e in entries ==> e.name != ""
      modifies this`act, this`addLocks, this`loaded
      ensures Valid()
      ensures SweepRun(old(Snap()), entries, owned, pending, CachePolicy(now), free, fails, ordered, plan, Snap())
      ensures Reports(entries, owned + pending, Gone(plan, fails), totals)
      ensures totals.used == OnDisk(entries) - r.bytes && totals.entries == |entries| - r.count
      ensures ownedCount == Sum(entries, {}, OwnedCount(owned))
    {
      ghost var s := Snap();
      var units, used, partialBytes, orphanBytes, orphanCount;
      units, used, partialBytes, orphanBytes, orphanCount, ownedCount := Scan(entries, owned, pending);
      CandidatesScanned(s, owned, pending, entries);
      var todo;
      todo, ordered := PlanCache(units, used, free, CachePolicy(now));
      plan := todo;
      PlansFit(s, owned, pending, entries, ordered, CachePolicy(now), used, free);
      r := ApplyPlan(todo, fails, owned, pending, entries);
      SweepIsStep(s, entries, owned, pending, CachePolicy(now), free, fails, ordered, plan, Snap());
      totals := Totals(used - r.bytes, |entries| - r.count, partialBytes - r.partialBytes,
                       orphanBytes - r.orphanBytes, orphanCount - r.orphans);
      ReportsAfter(entries, owned + pending, Gone(plan, fails), r, totals);
    }

    /** `sweepCache`. The inputs are what the outside world answers: the scan, which may fail,
        which loaded torrents have their metadata or are known by name, the free space (negative
        when the probe failed), and which removals fail. */
    method SweepCache(scan: Option<seq<Entry>>, infoKnown: set<string>, mediaKnown: set<string>,
                      free: int, now: int, fails: set<string>)
      returns (ghost plan: seq<Decision>, ghost ordered: seq<Unit>)
      requires Valid()
      requires scan.Some? ==> UniqueEntries(scan.value) && forall e :: e in scan.value ==> e.name != ""
      modifies this`act, this`addLocks, this`loaded, this`stats, this`evictedBytes, this`evictedCount
      ensures Valid()
      ensures scan.None? ==> Snap() == old(Snap()) && stats == old(stats)
                             && evictedBytes == old(evictedBytes) && evictedCount == old(evictedCount)
      ensures scan.Some? ==>
        var owned, pending := old(loaded) * infoKnown, (old(loaded) - infoKnown) * mediaKnown;
        && SweepRun(old(Snap()), scan.value, owned, pending, CachePolicy(now), free, fails, ordered, plan, Snap())
        && Reports(scan.value, owned + pending, Gone(plan, fails), stats.totals)
        && stats.budget == maxCacheBytes && stats.reserve == reserveBytes && stats.free == free
        && stats.loaded == Sum(scan.value, {}, OwnedCount(owned))
        && evictedBytes == stats.evictedBytes == old(evictedBytes) + OnDisk(scan.value) - stats.totals.used
        && evictedCount == stats.evictedCount == old(evictedCount) + |scan.value| - stats.totals.entries
    {
      if scan.None? {
        return [], [];
      }
      var entries := scan.value;
      var owned, pending := loaded * infoKnown, (loaded - infoKnown) * mediaKnown;
      var totals, ownedCount, r;
      totals, ownedCount, r, plan, ordered := ScanAndReclaim(entries, owned, pending, free, now, fails);
      label reclaimed:
      evictedBytes, evictedCount := evictedBytes + r.bytes, evictedCount + r.count;
      stats := CacheStats(totals, maxCacheBytes, reserveBytes, free, ownedCount, evictedBytes, evictedCount);
      StatsAreSeparate@reclaimed();
    }
  }
}
