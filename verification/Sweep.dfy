/** The sweep of cache.go seen from outside: which units a scan yields, and what applying a
    plan leaves of the engine's state and of the totals. */
module Sweep {
  import opened Basics
  import opened CachePlan
  import opened CacheTheorems
  import opened Accounting
  import opened EngineState

  /** An entry with what the engine knows about its torrent: the last use is the newer of
      the file time and the last access. */
  function UnitOf<R>(s: Snapshot<R>, owned: set<string>, e: Entry): Unit {
    if e.name in owned then
      var readers := if e.name in s.act then s.act[e.name].readers else 0;
      var last := if e.name in s.act && s.act[e.name].lastAccess > e.mod then s.act[e.name].lastAccess else e.mod;
      Unit(e, e.name, true, readers, last)
    else
      Unit(e, "", false, 0, e.mod)
  }

  /** Entries whose torrent is still waiting for its metadata are left out of the scan, so no
      rule can touch them. */
  function IsShown(owned: set<string>, pending: set<string>): Entry -> bool {
    (e: Entry) => e.name !in pending - owned
  }

  /** The units of a scan: what planCache is given. */
  function Candidates<R>(s: Snapshot<R>, owned: set<string>, pending: set<string>, entries: seq<Entry>): seq<Unit> {
    var shown := Filter(IsShown(owned, pending), entries);
    seq(|shown|, i requires 0 <= i < |shown| => UnitOf(s, owned, shown[i]))
  }

  function UnitOne<R>(s: Snapshot<R>, owned: set<string>, pending: set<string>, e: Entry): seq<Unit> {
    if e.name in pending - owned then [] else [UnitOf(s, owned, e)]
  }

  lemma CandidatesNext<R>(s: Snapshot<R>, owned: set<string>, pending: set<string>, entries: seq<Entry>, i: nat)
    requires i < |entries|
    ensures Candidates(s, owned, pending, entries[..i + 1])
         == Candidates(s, owned, pending, entries[..i]) + UnitOne(s, owned, pending, entries[i])
  {
    FilterNext(IsShown(owned, pending), entries, i);
  }

  function OnDisk(entries: seq<Entry>): int {
    Sum(entries, {}, Bytes())
  }

  /** A unit this scan may have produced. */
  predicate Scanned<R>(s: Snapshot<R>, owned: set<string>, pending: set<string>, entries: seq<Entry>, u: Unit) {
    u.entry in entries && u.entry.name !in pending - owned && u == UnitOf(s, owned, u.entry)
  }

  lemma {:induction false} CandidatesScanned<R>(s: Snapshot<R>, owned: set<string>, pending: set<string>,
                                                entries: seq<Entry>)
    requires UniqueEntries(entries)
    ensures UniqueNames(Candidates(s, owned, pending, entries))
    ensures forall u :: u in Candidates(s, owned, pending, entries) ==> Scanned(s, owned, pending, entries, u)
  {
    if entries != [] {
      var n := |entries| - 1;
      var init := Candidates(s, owned, pending, entries[..n]);
      CandidatesScanned(s, owned, pending, entries[..n]);
      CandidatesNext(s, owned, pending, entries, n);
      assert entries[..n + 1] == entries;
      forall i | 0 <= i < |init| ensures init[i].entry.name != entries[n].name {
        assert init[i] in init;
      }
    }
  }

  /** Everything planned comes from the scan, nothing twice, nothing that is being read. */
  ghost predicate PlanFits<R>(s: Snapshot<R>, owned: set<string>, pending: set<string>, entries: seq<Entry>,
                              plan: seq<Decision>) {
    && UniqueNames(UnitsOf(plan))
    && forall u :: u in UnitsOf(plan) ==> Scanned(s, owned, pending, entries, u) && u.readers <= 0
  }

  lemma PlansFit<R>(s: Snapshot<R>, owned: set<string>, pending: set<string>, entries: seq<Entry>,
                    ordered: seq<Unit>, p: Policy, used: int, free: int)
    requires UniqueEntries(entries) && LruOrder(ordered, Candidates(s, owned, pending, entries))
    ensures PlanFits(s, owned, pending, entries, Plan(ordered, p, used, free))
  {
    var units := Candidates(s, owned, pending, entries);
    CandidatesScanned(s, owned, pending, entries);
    PermutationUnique(ordered, units);
    PlannedAreUnique(ordered, p, used, free);
    PlannedAreUnprotected(ordered, p, used, free);
    forall u | u in UnitsOf(Plan(ordered, p, used, free))
      ensures Scanned(s, owned, pending, entries, u) && u.readers <= 0
    {
      assert u in multiset(ordered) && u in multiset(units);
    }
  }

  /** Nor anything that was accessed within the grace period, whatever its files say. */
  lemma RecentAccessIsSpared<R>(s: Snapshot<R>, owned: set<string>, pending: set<string>, entries: seq<Entry>,
                                ordered: seq<Unit>, p: Policy, used: int, free: int, k: string)
    requires UniqueEntries(entries) && LruOrder(ordered, Candidates(s, owned, pending, entries))
    requires k in owned && k in s.act && Since(p.now, s.act[k].lastAccess) < p.grace
    ensures k !in NamesOf(UnitsOf(Plan(ordered, p, used, free)))
  {
    PlansFit(s, owned, pending, entries, ordered, p, used, free);
    PlannedAreUnprotected(ordered, p, used, free);
    forall u | u in UnitsOf(Plan(ordered, p, used, free)) ensures u.entry.name != k {
      assert Scanned(s, owned, pending, entries, u) && !Protected(u, p);
    }
  }

  /** The names a plan removes when the removals in `fails` do not succeed. */
  function Gone(plan: seq<Decision>, fails: set<string>): set<string> {
    NamesOf(UnitsOf(plan)) - fails
  }

  /** The state after applying a plan. */
  function Applied<R>(s: Snapshot<R>, owned: set<string>, plan: seq<Decision>, fails: set<string>): Snapshot<R> {
    Swept(s, NamesOf(UnitsOf(plan)) * owned, Gone(plan, fails) * owned)
  }

  /** What a sweep leaves: the torrent of an entry goes when the entry is planned, its record and its lock
      when its files go too, and nothing else changes. */
  lemma AppliedMeans<R>(s: Snapshot<R>, owned: set<string>, plan: seq<Decision>, fails: set<string>, k: string)
    ensures var t := Applied(s, owned, plan, fails);
      var planned := k in owned && exists i :: 0 <= i < |plan| && plan[i].unit.entry.name == k;
      && (k in t.loaded <==> k in s.loaded && !planned)
      && (k in t.act <==> k in s.act && (planned ==> k in fails)) && (k in t.act ==> t.act[k] == s.act[k])
      && (k in t.locks <==> k in s.locks && (planned ==> k in fails))
      && t.plays == s.plays
  {
    var us := UnitsOf(plan);
    assert forall i :: 0 <= i < |plan| ==> us[i] in us && us[i] == plan[i].unit;
  }

  lemma NamesOfNext(plan: seq<Decision>, i: nat)
    requires i < |plan|
    ensures NamesOf(UnitsOf(plan[..i + 1])) == NamesOf(UnitsOf(plan[..i])) + {plan[i].unit.entry.name}
  {
    var a, b := UnitsOf(plan[..i]), UnitsOf(plan[..i + 1]);
    assert b == a + [plan[i].unit];
  }

  lemma NotYetNamed(plan: seq<Decision>, i: nat)
    requires i < |plan| && UniqueNames(UnitsOf(plan))
    ensures plan[i].unit.entry.name !in NamesOf(UnitsOf(plan[..i]))
  {
    var us := UnitsOf(plan);
    forall u | u in UnitsOf(plan[..i]) ensures u.entry.name != plan[i].unit.entry.name {
      var j :| 0 <= j < i && UnitsOf(plan[..i])[j] == u;
      assert us[j] == u && us[i] == plan[i].unit;
    }
  }

  /** One decision of the plan: the torrent is dropped, and unless the removal fails the
      record, the lock and the entry go too. */
  function ApplyOne<R>(t: Snapshot<R>, owned: set<string>, name: string, failed: bool): Snapshot<R> {
    if name !in owned then t
    else Swept(t, {name}, if failed then {} else {name})
  }

  lemma AppliedNext<R>(s: Snapshot<R>, owned: set<string>, plan: seq<Decision>, fails: set<string>, i: nat)
    requires i < |plan|
    ensures var name := plan[i].unit.entry.name;
      Applied(s, owned, plan[..i + 1], fails)
      == ApplyOne(Applied(s, owned, plan[..i], fails), owned, name, name in fails)
  {
    var name := plan[i].unit.entry.name;
    var a, g := NamesOf(UnitsOf(plan[..i])), Gone(plan[..i], fails);
    NamesOfNext(plan, i);
    if name in owned {
      assert (a + {name}) * owned == a * owned + {name};
      if name in fails {
        assert Gone(plan[..i + 1], fails) * owned == g * owned;
      } else {
        assert Gone(plan[..i + 1], fails) * owned == g * owned + {name};
      }
    } else {
      assert (a + {name}) * owned == a * owned;
      assert Gone(plan[..i + 1], fails) * owned == g * owned;
    }
  }

  lemma AccountsApplied<R>(s: Snapshot<R>, owned: set<string>, pending: set<string>, entries: seq<Entry>,
                           plan: seq<Decision>, fails: set<string>, i: nat, r: Reclaimed)
    requires UniqueEntries(entries) && PlanFits(s, owned, pending, entries, plan) && i < |plan|
    requires Accounts(entries, owned + pending, Gone(plan[..i], fails), r)
    ensures var e := plan[i].unit.entry;
      Accounts(entries, owned + pending, Gone(plan[..i + 1], fails),
               if e.name in fails then r else Reclaim(r, e, owned + pending))
  {
    var e := plan[i].unit.entry;
    assert UnitsOf(plan)[i] in UnitsOf(plan);
    NamesOfNext(plan, i);
    NotYetNamed(plan, i);
    if e.name in fails {
      assert Gone(plan[..i + 1], fails) == Gone(plan[..i], fails);
    } else {
      assert Gone(plan[..i + 1], fails) == Gone(plan[..i], fails) + {e.name};
      AccountsNext(entries, owned + pending, Gone(plan[..i], fails), r, e);
    }
  }

  /** A sweep is one of the engine's steps: it drops only loaded torrents nobody reads. */
  lemma AppliedSweeps<R>(s: Snapshot<R>, owned: set<string>, pending: set<string>, entries: seq<Entry>,
                         plan: seq<Decision>, fails: set<string>)
    requires PlanFits(s, owned, pending, entries, plan) && owned <= s.loaded
    ensures Sweeps(s, NamesOf(UnitsOf(plan)) * owned, Gone(plan, fails) * owned)
    ensures Gone(plan, fails) !! pending - owned
  {
  }

  /** The scan's totals over the whole directory, and what a finished sweep reports. */
  ghost predicate Reports(entries: seq<Entry>, known: set<string>, gone: set<string>, st: Totals) {
    && st.used == Sum(entries, gone, Bytes())
    && st.entries == Sum(entries, gone, One())
    && st.partialBytes == Sum(entries, gone, PartialBytes())
    && st.orphanBytes == Sum(entries, gone, OrphanBytes(known))
    && st.orphanCount == Sum(entries, gone, OrphanCount(known))
  }

  lemma NothingApplied<R>(s: Snapshot<R>, owned: set<string>, plan: seq<Decision>, fails: set<string>,
                          entries: seq<Entry>, pending: set<string>)
    ensures Applied(s, owned, plan[..0], fails) == s
    ensures Accounts(entries, owned + pending, Gone(plan[..0], fails), Reclaimed(0, 0, 0, 0, 0))
  {
    assert Gone(plan[..0], fails) == {};
    AccountsStart(entries, owned + pending);
  }

  lemma PlannedUnit<R>(s: Snapshot<R>, owned: set<string>, pending: set<string>, entries: seq<Entry>,
                       plan: seq<Decision>, i: nat)
    requires i < |plan| && PlanFits(s, owned, pending, entries, plan)
    ensures Scanned(s, owned, pending, entries, plan[i].unit)
  {
    assert UnitsOf(plan)[i] in UnitsOf(plan);
  }

  /** One whole sweep, from what it saw to the state it left. */
  ghost predicate SweepRun<R>(s: Snapshot<R>, entries: seq<Entry>, owned: set<string>, pending: set<string>,
                              p: Policy, free: int, fails: set<string>,
                              ordered: seq<Unit>, plan: seq<Decision>, t: Snapshot<R>) {
    && LruOrder(ordered, Candidates(s, owned, pending, entries))
    && plan == Plan(ordered, p, OnDisk(entries), free)
    && t == Applied(s, owned, plan, fails)
  }

  /** A sweep is one of the engine's steps, so it keeps the invariant; it removes no entry
      whose torrent waits for its metadata, and none that somebody reads. */
  lemma SweepIsStep<R>(s: Snapshot<R>, entries: seq<Entry>, owned: set<string>, pending: set<string>,
                       p: Policy, free: int, fails: set<string>,
                       ordered: seq<Unit>, plan: seq<Decision>, t: Snapshot<R>)
    requires Inv(s) && UniqueEntries(entries) && owned <= s.loaded && owned !! pending
    requires SweepRun(s, entries, owned, pending, p, free, fails, ordered, plan, t)
    ensures Step(s, Event.Sweep(NamesOf(UnitsOf(plan)) * owned, Gone(plan, fails) * owned), t) && Inv(t)
    ensures Gone(plan, fails) !! pending
    ensures forall k :: k in Gone(plan, fails) && k in owned ==> s.act[k].readers == 0
  {
    InvFacts(s);
    PlansFit(s, owned, pending, entries, ordered, p, OnDisk(entries), free);
    AppliedSweeps(s, owned, pending, entries, plan, fails);
    SweepKeepsInv(s, NamesOf(UnitsOf(plan)) * owned, Gone(plan, fails) * owned);
  }

  /** The totals a sweep publishes, from its scan and what it reclaimed. */
  lemma ReportsAfter(entries: seq<Entry>, known: set<string>, gone: set<string>, r: Reclaimed, st: Totals)
    requires Accounts(entries, known, gone, r)
    requires st.used == OnDisk(entries) - r.bytes && st.entries == |entries| - r.count
    requires st.partialBytes == Sum(entries, {}, PartialBytes()) - r.partialBytes
    requires st.orphanBytes == Sum(entries, {}, OrphanBytes(known)) - r.orphanBytes
    requires st.orphanCount == Sum(entries, {}, OrphanCount(known)) - r.orphans
    ensures Reports(entries, known, gone, st)
  {
  }
}
