/** Two sweeps in a row (cache.go): the second finds nothing to do. */
module Resweep {
  import opened Basics
  import opened CachePlan
  import opened CacheTheorems
  import opened Accounting
  import opened EngineState
  import opened Sweep

  function IsLeft(gone: set<string>): Entry -> bool {
    (e: Entry) => e.name !in gone
  }

  /** The entries left on disk once the named ones are gone. */
  function Left(entries: seq<Entry>, gone: set<string>): seq<Entry> {
    Filter(IsLeft(gone), entries)
  }

  function LeftOne(e: Entry, gone: set<string>): seq<Entry> {
    if e.name in gone then [] else [e]
  }

  lemma SumSnoc(entries: seq<Entry>, e: Entry, gone: set<string>, w: Entry -> int)
    ensures Sum(entries + [e], gone, w) == Sum(entries, gone, w) + if e.name in gone then 0 else w(e)
  {
    assert (entries + [e])[..|entries|] == entries;
  }

  lemma LeftSnoc(entries: seq<Entry>, e: Entry, gone: set<string>)
    ensures Left(entries + [e], gone) == Left(entries, gone) + LeftOne(e, gone)
  {
    FilterNext(IsLeft(gone), entries + [e], |entries|);
    assert (entries + [e])[..|entries|] == entries && (entries + [e])[..|entries| + 1] == entries + [e];
  }

  lemma {:induction false} LeftSum(entries: seq<Entry>, gone: set<string>, w: Entry -> int)
    ensures Sum(Left(entries, gone), {}, w) == Sum(entries, gone, w)
  {
    if entries != [] {
      var n := |entries| - 1;
      LeftSum(entries[..n], gone, w);
      LeftSnoc(entries[..n], entries[n], gone);
      assert entries == entries[..n] + [entries[n]];
      SumSnoc(entries[..n], entries[n], gone, w);
      if entries[n].name in gone {
        assert Left(entries, gone) == Left(entries[..n], gone);
      } else {
        SumSnoc(Left(entries[..n], gone), entries[n], {}, w);
      }
    }
  }

  lemma SurvivorsConcat(us: seq<Unit>, more: seq<Unit>, plan: seq<Decision>)
    requires |more| <= 1
    ensures Survivors(us + more, plan)
         == Survivors(us, plan) + if more != [] && more[0].entry.name !in NamesOf(UnitsOf(plan)) then more else []
  {
    if more == [] {
      assert us + more == us;
    } else {
      assert (us + more)[..|us|] == us;
    }
  }

  lemma CandidatesConcat<R>(s: Snapshot<R>, owned: set<string>, pending: set<string>,
                            entries: seq<Entry>, more: seq<Entry>)
    requires |more| <= 1
    ensures Candidates(s, owned, pending, entries + more)
         == Candidates(s, owned, pending, entries) + if more == [] then [] else UnitOne(s, owned, pending, more[0])
  {
    if more == [] {
      assert entries + more == entries;
    } else {
      var all := entries + more;
      CandidatesNext(s, owned, pending, all, |entries|);
      assert all[..|entries|] == entries && all[..|entries| + 1] == all;
    }
  }

  /** Dropping torrents leaves the units of the other entries as they were. */
  lemma SameUnit<R>(s: Snapshot<R>, t: Snapshot<R>, owned: set<string>, pending: set<string>,
                    gone: set<string>, e: Entry)
    requires t == Swept(s, gone * owned, gone * owned) && e.name !in gone
    ensures UnitOne(t, owned - gone, pending, e) == UnitOne(s, owned, pending, e)
  {
  }

  /** The spared units, with one more entry scanned. */
  lemma SparedSnoc<R>(s: Snapshot<R>, owned: set<string>, pending: set<string>, entries: seq<Entry>, e: Entry,
                      plan: seq<Decision>)
    ensures Survivors(Candidates(s, owned, pending, entries + [e]), plan)
         == Survivors(Candidates(s, owned, pending, entries), plan)
            + if e.name in NamesOf(UnitsOf(plan)) then [] else UnitOne(s, owned, pending, e)
  {
    CandidatesConcat(s, owned, pending, entries, [e]);
    SurvivorsConcat(Candidates(s, owned, pending, entries), UnitOne(s, owned, pending, e), plan);
  }

  /** A scan of what is left yields the units the plan spared. */
  lemma {:induction false} RescanYieldsSurvivors<R>(s: Snapshot<R>, t: Snapshot<R>, owned: set<string>,
                                                    pending: set<string>, entries: seq<Entry>,
                                                    plan: seq<Decision>, gone: set<string>)
    requires gone == NamesOf(UnitsOf(plan)) && t == Swept(s, gone * owned, gone * owned)
    ensures Candidates(t, owned - gone, pending, Left(entries, gone))
         == Survivors(Candidates(s, owned, pending, entries), plan)
  {
    if entries != [] {
      var n := |entries| - 1;
      var e, init := entries[n], entries[..n];
      RescanYieldsSurvivors(s, t, owned, pending, init, plan, gone);
      RescanNext(s, t, owned, pending, init, e, plan, gone);
      assert entries == init + [e];
    }
  }

  lemma RescanNext<R>(s: Snapshot<R>, t: Snapshot<R>, owned: set<string>, pending: set<string>,
                      entries: seq<Entry>, e: Entry, plan: seq<Decision>, gone: set<string>)
    requires gone == NamesOf(UnitsOf(plan)) && t == Swept(s, gone * owned, gone * owned)
    requires Candidates(t, owned - gone, pending, Left(entries, gone))
          == Survivors(Candidates(s, owned, pending, entries), plan)
    ensures Candidates(t, owned - gone, pending, Left(entries + [e], gone))
         == Survivors(Candidates(s, owned, pending, entries + [e]), plan)
  {
    LeftSnoc(entries, e, gone);
    SparedSnoc(s, owned, pending, entries, e, plan);
    CandidatesConcat(t, owned - gone, pending, Left(entries, gone), LeftOne(e, gone));
    if e.name !in gone {
      SameUnit(s, t, owned, pending, gone, e);
    }
  }

  lemma TotalBytesNext(plan: seq<Decision>, i: nat)
    requires i < |plan|
    ensures TotalBytes(UnitsOf(plan[..i + 1])) == TotalBytes(UnitsOf(plan[..i])) + plan[i].unit.entry.bytes
  {
    var us := UnitsOf(plan[..i + 1]);
    assert us[..i] == UnitsOf(plan[..i]);
  }

  /** What is left on disk is what was there less the bytes of the plan. */
  lemma {:induction false} PlanFrees<R>(s: Snapshot<R>, owned: set<string>, pending: set<string>, entries: seq<Entry>,
                                        plan: seq<Decision>, i: nat)
    requires UniqueEntries(entries) && PlanFits(s, owned, pending, entries, plan) && i <= |plan|
    ensures Sum(entries, NamesOf(UnitsOf(plan[..i])), Bytes()) == OnDisk(entries) - TotalBytes(UnitsOf(plan[..i]))
  {
    if i == 0 {
      assert NamesOf(UnitsOf(plan[..0])) == {};
    } else {
      PlanFrees(s, owned, pending, entries, plan, i - 1);
      TotalBytesNext(plan, i - 1);
      OneFreed(s, owned, pending, entries, plan, i - 1);
    }
  }

  lemma OneFreed<R>(s: Snapshot<R>, owned: set<string>, pending: set<string>, entries: seq<Entry>,
                    plan: seq<Decision>, i: nat)
    requires UniqueEntries(entries) && PlanFits(s, owned, pending, entries, plan) && i < |plan|
    ensures Sum(entries, NamesOf(UnitsOf(plan[..i + 1])), Bytes())
         == Sum(entries, NamesOf(UnitsOf(plan[..i])), Bytes()) - plan[i].unit.entry.bytes
  {
    NamesOfNext(plan, i);
    NotYetNamed(plan, i);
    PlannedUnit(s, owned, pending, entries, plan, i);
    SumRemoves(entries, NamesOf(UnitsOf(plan[..i])), Bytes(), plan[i].unit.entry);
  }

  /** After a sweep in which every removal succeeded, a second one at the same instant plans nothing
      and changes nothing: whichever torrents have their metadata by then being the same ones, the
      free space having grown by what was removed, and whatever the sort makes of ties. */
  lemma SecondSweepIsIdle<R>(s: Snapshot<R>, entries: seq<Entry>, infoKnown: set<string>, mediaKnown: set<string>,
                             p: Policy, free: int, first: seq<Unit>, plan: seq<Decision>, t: Snapshot<R>,
                             fails: set<string>, second: seq<Unit>, again: seq<Decision>, u: Snapshot<R>)
    requires Inv(s) && UniqueEntries(entries)
    requires SweepRun(s, entries, s.loaded * infoKnown, (s.loaded - infoKnown) * mediaKnown,
                      p, free, {}, first, plan, t)
    requires SweepRun(t, Left(entries, NamesOf(UnitsOf(plan))),
                      t.loaded * infoKnown, (t.loaded - infoKnown) * mediaKnown,
                      p, Refill(free, TotalBytes(UnitsOf(plan))), fails, second, again, u)
    ensures again == [] && u == t
  {
    var owned, pending := s.loaded * infoKnown, (s.loaded - infoKnown) * mediaKnown;
    var gone, freed := NamesOf(UnitsOf(plan)), TotalBytes(UnitsOf(plan));
    SameOwners(s, infoKnown, mediaKnown, plan, t);
    CandidatesScanned(s, owned, pending, entries);
    RescanYieldsSurvivors(s, t, owned, pending, entries, plan, gone);
    LeftOnDisk(s, owned, pending, entries, first, p, free, plan);
    SweepFixedPoint(Candidates(s, owned, pending, entries), first, second, p, OnDisk(entries), free, plan, freed);
    NothingLeft(t, t.loaded * infoKnown, again, fails);
  }

  /** Only torrents with their metadata are dropped, so the pending ones stay the same. */
  lemma SameOwners<R>(s: Snapshot<R>, infoKnown: set<string>, mediaKnown: set<string>,
                      plan: seq<Decision>, t: Snapshot<R>)
    requires t == Applied(s, s.loaded * infoKnown, plan, {})
    ensures var gone, owned := NamesOf(UnitsOf(plan)), s.loaded * infoKnown;
      && t == Swept(s, gone * owned, gone * owned)
      && t.loaded * infoKnown == owned - gone
      && (t.loaded - infoKnown) * mediaKnown == (s.loaded - infoKnown) * mediaKnown
  {
    assert Gone(plan, {}) == NamesOf(UnitsOf(plan));
  }

  lemma LeftOnDisk<R>(s: Snapshot<R>, owned: set<string>, pending: set<string>, entries: seq<Entry>,
                      first: seq<Unit>, p: Policy, free: int, plan: seq<Decision>)
    requires UniqueEntries(entries) && LruOrder(first, Candidates(s, owned, pending, entries))
    requires plan == Plan(first, p, OnDisk(entries), free)
    ensures OnDisk(Left(entries, NamesOf(UnitsOf(plan)))) == OnDisk(entries) - TotalBytes(UnitsOf(plan))
  {
    PlansFit(s, owned, pending, entries, first, p, OnDisk(entries), free);
    assert plan[..|plan|] == plan;
    PlanFrees(s, owned, pending, entries, plan, |plan|);
    LeftSum(entries, NamesOf(UnitsOf(plan)), Bytes());
  }

  // ---------- what a sweep achieves ----------

  /** The instant is inside the grace period. */
  predicate Fresh(p: Policy, last: int) {
    p.now - last < p.grace || p.now < last || p.grace > 0x7fff_ffff_ffff_ffff
  }

  /** The entry was written lately, or its torrent is being read or was accessed lately. */
  predicate InUse<R>(s: Snapshot<R>, owned: set<string>, p: Policy, e: Entry) {
    || Fresh(p, e.mod)
    || (e.name in owned && e.name in s.act && (s.act[e.name].readers > 0 || Fresh(p, s.act[e.name].lastAccess)))
  }

  lemma InUseIsKept<R>(s: Snapshot<R>, owned: set<string>, p: Policy, e: Entry)
    ensures Kept(UnitOf(s, owned, e), p) <==> InUse(s, owned, p, e)
  {
  }

  /** A sweep removes nothing that is in use or waits for its metadata. When every removal works, the
      directory is within its budget and the volume outside its reserve after it, or everything that is
      left is in use or waits for its metadata. */
  lemma SweepMeetsItsGoal<R>(s: Snapshot<R>, entries: seq<Entry>, owned: set<string>, pending: set<string>,
                             p: Policy, free: int, ordered: seq<Unit>, plan: seq<Decision>, t: Snapshot<R>)
    requires UniqueEntries(entries) && owned !! pending
    requires SweepRun(s, entries, owned, pending, p, free, {}, ordered, plan, t)
    ensures var left := Left(entries, Gone(plan, {}));
      var freed := OnDisk(entries) - OnDisk(left);
      && (forall e :: e in entries && e !in left ==> !InUse(s, owned, p, e) && e.name !in pending)
      && (|| ((p.budget > 0 ==> OnDisk(left) <= p.budget) && (p.reserve > 0 && free >= 0 ==> free + freed >= p.reserve))
          || forall e :: e in left ==> InUse(s, owned, p, e) || e.name in pending)
  {
    var units := Candidates(s, owned, pending, entries);
    assert Gone(plan, {}) == NamesOf(UnitsOf(plan));
    CandidatesScanned(s, owned, pending, entries);
    PermutationUnique(ordered, units);
    LeftOnDisk(s, owned, pending, entries, ordered, p, free, plan);
    PlanReachesItsGoal(ordered, p, OnDisk(entries), free);
    OnlyUnusedGo(s, entries, owned, pending, p, free, ordered, plan);
    if forall u :: u in ordered && u !in UnitsOf(plan) ==> Kept(u, p) {
      OnlyUsedStay(s, entries, owned, pending, p, ordered, plan);
    }
  }

  lemma {:induction false} LeftMembers(entries: seq<Entry>, gone: set<string>)
    ensures forall e :: e in Left(entries, gone) <==> e in entries && e.name !in gone
  {
    FilterMembers(IsLeft(gone), entries);
  }

  lemma OnlyUnusedGo<R>(s: Snapshot<R>, entries: seq<Entry>, owned: set<string>, pending: set<string>,
                        p: Policy, free: int, ordered: seq<Unit>, plan: seq<Decision>)
    requires UniqueEntries(entries) && owned !! pending && LruOrder(ordered, Candidates(s, owned, pending, entries))
    requires plan == Plan(ordered, p, OnDisk(entries), free)
    ensures forall e :: e in entries && e !in Left(entries, NamesOf(UnitsOf(plan))) ==>
      !InUse(s, owned, p, e) && e.name !in pending
  {
    PlansFit(s, owned, pending, entries, ordered, p, OnDisk(entries), free);
    LeftMembers(entries, NamesOf(UnitsOf(plan)));
    forall e | e in entries && e.name in NamesOf(UnitsOf(plan)) ensures !InUse(s, owned, p, e) && e.name !in pending {
      var k :| 0 <= k < |plan| && UnitsOf(plan)[k].entry.name == e.name;
      assert UnitsOf(plan)[k] in UnitsOf(plan);
      assert plan[k].unit.entry == e;
      EachDecisionIsDue(ordered, p, OnDisk(entries), free, k);
      InUseIsKept(s, owned, p, e);
    }
  }

  lemma OnlyUsedStay<R>(s: Snapshot<R>, entries: seq<Entry>, owned: set<string>, pending: set<string>,
                        p: Policy, ordered: seq<Unit>, plan: seq<Decision>)
    requires owned !! pending && LruOrder(ordered, Candidates(s, owned, pending, entries))
    requires forall u :: u in ordered && u !in UnitsOf(plan) ==> Kept(u, p)
    ensures forall e :: e in Left(entries, NamesOf(UnitsOf(plan))) ==> InUse(s, owned, p, e) || e.name in pending
  {
    var shown := Filter(IsShown(owned, pending), entries);
    LeftMembers(entries, NamesOf(UnitsOf(plan)));
    FilterMembers(IsShown(owned, pending), entries);
    forall e | e in entries && e.name !in NamesOf(UnitsOf(plan)) && e.name !in pending ensures InUse(s, owned, p, e) {
      var i :| 0 <= i < |shown| && shown[i] == e;
      var u := Candidates(s, owned, pending, entries)[i];
      assert u in multiset(ordered);
      assert u.entry == e;
      InUseIsKept(s, owned, p, e);
    }
  }

  lemma NothingLeft<R>(t: Snapshot<R>, owned: set<string>, plan: seq<Decision>, fails: set<string>)
    requires plan == []
    ensures Applied(t, owned, plan, fails) == t
  {
    assert NamesOf(UnitsOf(plan)) == {};
    assert Gone(plan, fails) == {};
  }
}
