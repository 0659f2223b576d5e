/** How many torrents the client can hold when several `ensure` calls run at once (engine.go). The
    capacity check, the parts of the eviction it may ask for, and the add are separate steps, and any
    other call may run in between. */
module Capacity {
  import opened Basics

  type Infohash = nat

  /** Where an `ensure` call that found its torrent missing stands. */
  datatype Phase =
    | Checking(ih: Infohash)                               // about to compare the client's size with the limit
    | Evicting(ih: Infohash)                               // about to pick a victim
    | Picked(ih: Infohash, victim: Infohash)               // has deleted its record, about to look it up
    | Dropping(ih: Infohash, victim: Infohash, load: nat)  // has found it, about to drop it
    | Cleared(ih: Infohash)                                // free to add the magnet

  /** `loads` counts how often a torrent has been loaded: a handle belongs to one load of it. `used` holds
      the last use of every record, and `pinned` what is being read or added. */
  datatype State = State(loaded: set<Infohash>, loads: map<Infohash, nat>, used: map<Infohash, nat>, clock: nat,
                         pinned: set<Infohash>, calls: map<nat, Phase>)

  const EMPTY := State({}, map[], map[], 0, {}, map[])

  datatype Event =
    | Start(call: nat, ih: Infohash)
    | Touch(ih: Infohash)
    | Pin(ihs: set<Infohash>)
    | Check(call: nat)
    | Pick(call: nat, victim: Infohash)
    | PickNone(call: nat)
    | LookUp(call: nat)
    | DropVictim(call: nat, took: bool)
    | Add(call: nat, accepted: bool)
    | Drop(gone: set<Infohash>)     // a reap or a sweep drops torrents
    | Forget(gone: set<Infohash>)   // and deletes records

  function Load(s: State, ih: Infohash): nat {
    if ih in s.loads then s.loads[ih] else 0
  }

  /** The least recently used record that is not pinned. */
  predicate IsOldest(s: State, victim: Infohash) {
    && victim in s.used && victim !in s.pinned
    && forall ih :: ih in s.used && ih !in s.pinned ==> s.used[victim] <= s.used[ih]
  }

  /** What is pinned changes in any way. A drop can fail to take the victim only when its handle is of no
      use any more: the victim is gone, or has been loaded anew. */
  predicate Possible(s: State, e: Event) {
    match e
    case Start(c, ih) => c !in s.calls
    case Touch(ih) => true
    case Pin(ihs) => true
    case Check(c) => c in s.calls && s.calls[c].Checking?
    case Pick(c, victim) => c in s.calls && s.calls[c].Evicting? && IsOldest(s, victim)
    case PickNone(c) => c in s.calls && s.calls[c].Evicting? && s.used.Keys <= s.pinned
    case LookUp(c) => c in s.calls && s.calls[c].Picked?
    case DropVictim(c, took) =>
      && c in s.calls && s.calls[c].Dropping?
      && (!took ==> s.calls[c].victim !in s.loaded || Load(s, s.calls[c].victim) != s.calls[c].load)
    case Add(c, accepted) => c in s.calls && s.calls[c].Cleared?
    case Drop(gone) => true
    case Forget(gone) => true
  }

  function Used(s: State, ih: Infohash): State {
    s.(used := s.used[ih := s.clock], clock := s.clock + 1)
  }

  function Moved(s: State, c: nat, p: Phase): State {
    s.(calls := s.calls[c := p])
  }

  function Next(s: State, e: Event, max: nat): State
    requires Possible(s, e)
  {
    match e
    case Start(c, ih) => Moved(Used(s, ih), c, Checking(ih))
    case Touch(ih) => Used(s, ih)
    case Pin(ihs) => s.(pinned := ihs)
    case Check(c) => Moved(s, c, if |s.loaded| >= max then Evicting(s.calls[c].ih) else Cleared(s.calls[c].ih))
    case Pick(c, victim) => Moved(s, c, Picked(s.calls[c].ih, victim)).(used := s.used - {victim})
    case PickNone(c) => s.(calls := s.calls - {c})
    case LookUp(c) =>
      var ih, victim := s.calls[c].ih, s.calls[c].victim;
      Moved(s, c, if victim in s.loaded then Dropping(ih, victim, Load(s, victim)) else Evicting(ih))
    case DropVictim(c, took) =>
      Moved(s, c, Cleared(s.calls[c].ih)).(loaded := if took then s.loaded - {s.calls[c].victim} else s.loaded)
    case Add(c, accepted) =>
      var ih := s.calls[c].ih;
      var t := s.(calls := s.calls - {c});
      if accepted then t.(loaded := s.loaded + {ih}, loads := s.loads[ih := Load(s, ih) + 1]) else t
    case Drop(gone) => s.(loaded := s.loaded - gone)
    case Forget(gone) => s.(used := s.used - gone)
  }

  /** What the quiet steps do. */
  lemma QuietSteps(s: State, e: Event, max: nat)
    requires Possible(s, e)
    ensures var t := Next(s, e, max);
      && (e.Touch? ==> t.used == s.used[e.ih := s.clock] && t.clock > s.clock)
      && (e.PickNone? ==> t == s.(calls := s.calls - {e.call}))
      && (e.Pick? ==> t.used.Keys == s.used.Keys - {e.victim} && t.loaded == s.loaded)
      && (e.Drop? ==> t == s.(loaded := s.loaded - e.gone))
      && (e.Forget? ==> t == s.(used := s.used - e.gone))
      && (e.Add? ==> t.calls == s.calls - {e.call} && (!e.accepted ==> t.loaded == s.loaded))
  {
  }

  /** A legal run: every event is possible, and at most `callers` calls are ever in flight. */
  predicate Legal(s: State, run: seq<Event>, max: nat, callers: nat)
    decreases |run|
  {
    run == [] ||
    (Possible(s, run[0])
     && (run[0].Start? ==> |s.calls| < callers)
     && Legal(Next(s, run[0], max), run[1..], max, callers))
  }

  function After(s: State, run: seq<Event>, max: nat, callers: nat): State
    requires Legal(s, run, max, callers)
    decreases |run|
  {
    if run == [] then s else After(Next(s, run[0], max), run[1..], max, callers)
  }

  // ---------- the bound ----------

  predicate IsDropping(s: State, c: nat, victim: Infohash) {
    c in s.calls && s.calls[c].Dropping? && s.calls[c].victim == victim
  }

  /** No two evictions are about to drop the same torrent, and no drop misses its torrent while that is
      loaded. */
  predicate SoundEviction(s: State, e: Event) {
    match e
    case LookUp(c) =>
      c in s.calls && s.calls[c].Picked? ==> forall d :: d in s.calls ==> !IsDropping(s, d, s.calls[c].victim)
    case DropVictim(c, took) =>
      c in s.calls && s.calls[c].Dropping? ==> took || s.calls[c].victim !in s.loaded
    case _ => true
  }

  predicate SoundEvictions(s: State, run: seq<Event>, max: nat, callers: nat)
    requires Legal(s, run, max, callers)
    decreases |run|
  {
    run == [] || (SoundEviction(s, run[0]) && SoundEvictions(Next(s, run[0], max), run[1..], max, callers))
  }

  /** The calls that have a torrent coming: they have passed the check, or made room. */
  function Owing(s: State): set<nat> {
    set c | c in s.calls && (s.calls[c].Cleared? || s.calls[c].Dropping?)
  }

  function DroppingCalls(s: State): set<nat> {
    set c | c in s.calls && s.calls[c].Dropping?
  }

  function Victims(s: State): set<Infohash> {
    set c | c in s.calls && s.calls[c].Dropping? :: s.calls[c].victim
  }

  predicate Apart(s: State, c: nat, d: nat) {
    IsDroppingAny(s, c) && IsDroppingAny(s, d) && s.calls[c].victim == s.calls[d].victim ==> c == d
  }

  predicate IsDroppingAny(s: State, c: nat) {
    c in s.calls && s.calls[c].Dropping?
  }

  ghost predicate OneDropEach(s: State) {
    forall c, d {:trigger Apart(s, c, d)} :: Apart(s, c, d)
  }

  /** The torrents nobody is about to drop, and those still to come. */
  function Owed(s: State): nat {
    |s.loaded - Victims(s)| + |Owing(s)|
  }

  ghost predicate Bounded(s: State, max: nat, callers: nat) {
    |s.calls| <= callers && OneDropEach(s) && Owed(s) <= max + callers - 1
  }

  lemma OwingAreCalls(s: State)
    ensures |Owing(s)| <= |s.calls|
  {
    SubsetSize(Owing(s), s.calls.Keys);
  }

  /** There are no more victims than calls about to drop one. */
  lemma {:induction false} ImageIsNoLarger(calls: map<nat, Phase>, from: set<nat>, image: set<Infohash>)
    requires forall c :: c in from ==> c in calls && calls[c].Dropping?
    requires image == set c | c in from :: calls[c].victim
    ensures |image| <= |from|
    decreases |from|
  {
    if from != {} {
      var c :| c in from;
      var rest := set d | d in from - {c} :: calls[d].victim;
      ImageIsNoLarger(calls, from - {c}, rest);
      assert image == rest + {calls[c].victim};
      assert |rest + {calls[c].victim}| <= |rest| + 1;
    }
  }

  lemma LoadedAreOwed(s: State)
    ensures |s.loaded| <= Owed(s)
  {
    ImageIsNoLarger(s.calls, DroppingCalls(s), Victims(s));
    SubsetSize(DroppingCalls(s), Owing(s));
    SubsetSize(s.loaded, (s.loaded - Victims(s)) + Victims(s));
    assert |(s.loaded - Victims(s)) + Victims(s)| <= |s.loaded - Victims(s)| + |Victims(s)|;
  }

  lemma SameOwed(s: State, t: State)
    requires Owing(t) == Owing(s) && Victims(t) == Victims(s) && t.loaded <= s.loaded
    ensures Owed(t) <= Owed(s)
  {
    SubsetSize(t.loaded - Victims(t), s.loaded - Victims(s));
  }

  /** Calls other than `c` are as they were. */
  ghost predicate Others(s: State, t: State, c: nat) {
    forall d :: d != c ==> (d in s.calls <==> d in t.calls) && (d in s.calls ==> s.calls[d] == t.calls[d])
  }

  lemma OneDropFewer(s: State, t: State, c: nat)
    requires OneDropEach(s) && Others(s, t, c) && !IsDroppingAny(t, c)
    ensures OneDropEach(t)
  {
    forall a, b ensures Apart(t, a, b) {
      assert Apart(s, a, b);
    }
  }

  lemma OneDropMore(s: State, t: State, c: nat)
    requires OneDropEach(s) && Others(s, t, c) && IsDroppingAny(t, c)
    requires forall d :: d in s.calls && d != c ==> !IsDropping(s, d, t.calls[c].victim)
    ensures OneDropEach(t)
  {
    forall a, b ensures Apart(t, a, b) {
      assert Apart(s, a, b);
    }
  }

  lemma VictimsWithout(s: State, t: State, c: nat)
    requires Others(s, t, c)
    ensures (forall v :: v in Victims(t) ==> v in Victims(s) || (IsDropping(t, c, v)))
    ensures (forall v :: v in Victims(s) ==> v in Victims(t) || (IsDropping(s, c, v)))
  {
    forall v | v in Victims(t) ensures v in Victims(s) || IsDropping(t, c, v) {
      var d :| d in t.calls && t.calls[d].Dropping? && t.calls[d].victim == v;
      assert d != c ==> d in s.calls && s.calls[d] == t.calls[d];
    }
    forall v | v in Victims(s) ensures v in Victims(t) || IsDropping(s, c, v) {
      var d :| d in s.calls && s.calls[d].Dropping? && s.calls[d].victim == v;
      assert d != c ==> d in t.calls && s.calls[d] == t.calls[d];
    }
  }

  /** A step that moves one call between phases that owe nothing. */
  lemma QuietMove(s: State, t: State, c: nat)
    requires c in s.calls ==> !s.calls[c].Cleared? && !s.calls[c].Dropping?
    requires c in t.calls ==> !t.calls[c].Cleared? && !t.calls[c].Dropping?
    requires Others(s, t, c) && OneDropEach(s)
    ensures Owing(t) == Owing(s) && Victims(t) == Victims(s) && OneDropEach(t)
  {
    VictimsWithout(s, t, c);
    OneDropFewer(s, t, c);
  }

  /** A call that passes the check has a torrent coming, but only below the limit. */
  lemma CheckKeepsBound(s: State, c: nat, max: nat, callers: nat)
    requires max > 0 && callers > 0 && Bounded(s, max, callers) && Possible(s, Check(c))
    ensures Bounded(Next(s, Check(c), max), max, callers)
  {
    var t := Next(s, Check(c), max);
    assert t.calls.Keys == s.calls.Keys;
    if |s.loaded| >= max {
      QuietMove(s, t, c);
      SameOwed(s, t);
    } else {
      VictimsWithout(s, t, c);
      OneDropFewer(s, t, c);
      OwingAreCalls(t);
      SubsetSize(t.loaded - Victims(t), t.loaded);
    }
  }

  lemma LookUpAdds(s: State, t: State, c: nat)
    requires Possible(s, LookUp(c)) && s.calls[c].victim in s.loaded && t == Next(s, LookUp(c), 0)
    ensures Victims(t) == Victims(s) + {s.calls[c].victim} && Owing(t) == Owing(s) + {c} && c !in Owing(s)
  {
    var v := s.calls[c].victim;
    VictimsWithout(s, t, c);
    assert IsDropping(t, c, v);
    assert v in Victims(t);
  }

  lemma LookUpOwes(s: State, t: State, c: nat)
    requires Possible(s, LookUp(c)) && s.calls[c].victim in s.loaded && t == Next(s, LookUp(c), 0)
    requires s.calls[c].victim !in Victims(s)
    ensures Owed(t) == Owed(s)
  {
    LookUpAdds(s, t, c);
    var others, v := s.loaded - Victims(s), s.calls[c].victim;
    assert t.loaded - Victims(t) == others - {v};
    assert |others - {v}| == |others| - 1;
  }

  lemma LookUpKeepsBound(s: State, c: nat, max: nat, callers: nat)
    requires Bounded(s, max, callers) && Possible(s, LookUp(c)) && SoundEviction(s, LookUp(c))
    ensures Bounded(Next(s, LookUp(c), max), max, callers)
  {
    var t := Next(s, LookUp(c), max);
    assert t.calls.Keys == s.calls.Keys;
    if s.calls[c].victim in s.loaded {
      forall d | d in s.calls && s.calls[d].Dropping? ensures s.calls[d].victim != s.calls[c].victim {
        assert !IsDropping(s, d, s.calls[c].victim);
      }
      LookUpOwes(s, t, c);
      OneDropMore(s, t, c);
    } else {
      QuietMove(s, t, c);
      SameOwed(s, t);
    }
  }

  lemma DropOwes(s: State, t: State, c: nat, took: bool)
    requires Possible(s, DropVictim(c, took)) && SoundEviction(s, DropVictim(c, took))
    requires OneDropEach(s) && t == Next(s, DropVictim(c, took), 0)
    ensures Owed(t) == Owed(s)
  {
    DropEnds(s, t, c, took);
    assert t.loaded - Victims(t) == s.loaded - Victims(s);
  }

  /** The victim of a drop is nobody's victim after it. */
  lemma DropEnds(s: State, t: State, c: nat, took: bool)
    requires Possible(s, DropVictim(c, took)) && OneDropEach(s) && t == Next(s, DropVictim(c, took), 0)
    ensures s.calls[c].victim in Victims(s) && Victims(t) == Victims(s) - {s.calls[c].victim}
    ensures Owing(t) == Owing(s)
  {
    var v := s.calls[c].victim;
    VictimsWithout(s, t, c);
    forall d | d in t.calls && t.calls[d].Dropping? ensures t.calls[d].victim != v {
      assert Apart(s, c, d);
    }
    assert IsDropping(s, c, v) && v in Victims(s) && v !in Victims(t);
  }

  lemma DropKeepsBound(s: State, c: nat, took: bool, max: nat, callers: nat)
    requires Bounded(s, max, callers) && Possible(s, DropVictim(c, took)) && SoundEviction(s, DropVictim(c, took))
    ensures Bounded(Next(s, DropVictim(c, took), max), max, callers)
  {
    var t := Next(s, DropVictim(c, took), max);
    assert t.calls.Keys == s.calls.Keys;
    DropOwes(s, t, c, took);
    OneDropFewer(s, t, c);
  }

  /** What the condition is about: an eviction leaves no more torrents loaded and coming than before it
      exactly when no other is about to drop the same one, and its drop does not miss. */
  lemma EvictionOwesIff(s: State, e: Event, max: nat)
    requires OneDropEach(s) && Possible(s, e) && (e.LookUp? || e.DropVictim?)
    requires e.LookUp? ==> s.calls[e.call].victim in s.loaded
    ensures Owed(Next(s, e, max)) <= Owed(s) <==> SoundEviction(s, e)
  {
    var t, v := Next(s, e, max), s.calls[e.call].victim;
    if SoundEviction(s, e) {
      if e.LookUp? {
        forall d | d in s.calls && s.calls[d].Dropping? ensures s.calls[d].victim != v {
          assert !IsDropping(s, d, v);
        }
        LookUpOwes(s, t, e.call);
      } else {
        DropOwes(s, t, e.call, e.took);
      }
    } else if e.LookUp? {
      LookUpAdds(s, t, e.call);
      assert v in Victims(s);
      assert Victims(t) == Victims(s);
    } else {
      MissedDropOwes(s, t, e.call);
    }
  }

  lemma MissedDropOwes(s: State, t: State, c: nat)
    requires Possible(s, DropVictim(c, false)) && s.calls[c].victim in s.loaded
    requires OneDropEach(s) && t == Next(s, DropVictim(c, false), 0)
    ensures Owed(t) == Owed(s) + 1
  {
    DropEnds(s, t, c, false);
    assert t.loaded - Victims(t) == (s.loaded - Victims(s)) + {s.calls[c].victim};
  }

  lemma AddOwes(s: State, t: State, c: nat, accepted: bool)
    requires Possible(s, Add(c, accepted)) && t == Next(s, Add(c, accepted), 0)
    ensures Owing(t) == Owing(s) - {c} && c in Owing(s) && Victims(t) == Victims(s)
  {
    VictimsWithout(s, t, c);
  }

  lemma OneMoreLoaded(s: State, t: State, ih: Infohash)
    requires t.loaded <= s.loaded + {ih} && Victims(t) == Victims(s)
    ensures |t.loaded - Victims(t)| <= |s.loaded - Victims(s)| + 1
  {
    var kept := s.loaded - Victims(s);
    SubsetSize(t.loaded - Victims(t), kept + {ih});
    assert |kept + {ih}| <= |kept| + 1;
  }

  lemma AddKeepsBound(s: State, c: nat, accepted: bool, max: nat, callers: nat)
    requires Bounded(s, max, callers) && Possible(s, Add(c, accepted))
    ensures Bounded(Next(s, Add(c, accepted), max), max, callers)
  {
    var t := Next(s, Add(c, accepted), max);
    AddOwes(s, t, c, accepted);
    OneMoreLoaded(s, t, s.calls[c].ih);
    OneDropFewer(s, t, c);
    assert t.calls.Keys == s.calls.Keys - {c};
    assert |Owing(t)| == |Owing(s)| - 1;
  }

  lemma QuietBound(s: State, t: State, c: nat, max: nat, callers: nat)
    requires Bounded(s, max, callers) && |t.calls| <= callers && t.loaded <= s.loaded && Others(s, t, c)
    requires c in s.calls ==> !s.calls[c].Cleared? && !s.calls[c].Dropping?
    requires c in t.calls ==> !t.calls[c].Cleared? && !t.calls[c].Dropping?
    ensures Bounded(t, max, callers)
  {
    QuietMove(s, t, c);
    SameOwed(s, t);
  }

  lemma SameCallsBound(s: State, t: State, max: nat, callers: nat)
    requires Bounded(s, max, callers) && t.calls == s.calls && t.loaded <= s.loaded
    ensures Bounded(t, max, callers)
  {
    forall c, d ensures Apart(t, c, d) {
      assert Apart(s, c, d);
    }
    SameOwed(s, t);
  }

  lemma QuietKeepsBound(s: State, e: Event, max: nat, callers: nat)
    requires Bounded(s, max, callers) && Possible(s, e) && (e.Start? ==> |s.calls| < callers)
    requires e.Start? || e.Pick? || e.PickNone?
    ensures Bounded(Next(s, e, max), max, callers)
  {
    var t := Next(s, e, max);
    if e.Pick? {
      assert t.calls.Keys == s.calls.Keys;
    } else if e.PickNone? {
      SubsetSize(t.calls.Keys, s.calls.Keys);
    }
    QuietBound(s, t, e.call, max, callers);
  }

  lemma StepKeepsBound(s: State, e: Event, max: nat, callers: nat)
    requires max > 0 && callers > 0 && Bounded(s, max, callers)
    requires Possible(s, e) && (e.Start? ==> |s.calls| < callers) && SoundEviction(s, e)
    ensures Bounded(Next(s, e, max), max, callers)
  {
    match e
    case Check(c) => CheckKeepsBound(s, c, max, callers);
    case LookUp(c) => LookUpKeepsBound(s, c, max, callers);
    case DropVictim(c, took) => DropKeepsBound(s, c, took, max, callers);
    case Add(c, accepted) => AddKeepsBound(s, c, accepted, max, callers);
    case Touch(_) => SameCallsBound(s, Next(s, e, max), max, callers);
    case Pin(_) => SameCallsBound(s, Next(s, e, max), max, callers);
    case Forget(_) => SameCallsBound(s, Next(s, e, max), max, callers);
    case Drop(_) => SameCallsBound(s, Next(s, e, max), max, callers);
    case _ => QuietKeepsBound(s, e, max, callers);
  }

  lemma {:induction false} RunKeepsBound(s: State, run: seq<Event>, max: nat, callers: nat)
    requires max > 0 && callers > 0 && Bounded(s, max, callers)
    requires Legal(s, run, max, callers) && SoundEvictions(s, run, max, callers)
    ensures Bounded(After(s, run, max, callers), max, callers)
    decreases |run|
  {
    if run != [] {
      StepKeepsBound(s, run[0], max, callers);
      RunKeepsBound(Next(s, run[0], max), run[1..], max, callers);
    }
  }

  /** With at most `callers` calls in flight the client never holds more than `max + callers - 1`
      torrents, whatever the interleaving, as long as no two evictions drop the same torrent and none
      misses the one it is to drop. */
  lemma CapacityUnderConcurrency(run: seq<Event>, max: nat, callers: nat)
    requires max > 0 && callers > 0 && Legal(EMPTY, run, max, callers) && SoundEvictions(EMPTY, run, max, callers)
    ensures |After(EMPTY, run, max, callers).loaded| <= max + callers - 1
  {
    assert Owing(EMPTY) == {} && EMPTY.loaded - Victims(EMPTY) == {};
    RunKeepsBound(EMPTY, run, max, callers);
    LoadedAreOwed(After(EMPTY, run, max, callers));
  }

  // ---------- one call at a time ----------

  /** At most one call is in flight, and its handle is to the torrent as it is loaded now. */
  ghost predicate Alone(s: State) {
    && |s.calls| <= 1
    && forall c :: c in s.calls && s.calls[c].Dropping? && s.calls[c].victim in s.loaded ==>
         Load(s, s.calls[c].victim) == s.calls[c].load
  }

  lemma OnlyOne(calls: map<nat, Phase>, c: nat, d: nat)
    requires |calls| <= 1 && c in calls && d in calls
    ensures c == d
  {
    SubsetSize({c, d}, calls.Keys);
  }

  predicate OfNoCall(e: Event) {
    e.Touch? || e.Pin? || e.Drop? || e.Forget?
  }

  lemma AloneStep(s: State, e: Event, max: nat)
    requires Alone(s) && Possible(s, e) && (e.Start? ==> |s.calls| < 1)
    ensures SoundEviction(s, e) && Alone(Next(s, e, max))
  {
    var t := Next(s, e, max);
    if !OfNoCall(e) && !e.Start? {
      forall d | d in s.calls ensures d == e.call {
        OnlyOne(s.calls, d, e.call);
      }
      SubsetSize(t.calls.Keys, s.calls.Keys);
    } else if e.Start? {
      assert s.calls == map[];
    }
  }

  lemma {:induction false} AloneIsSound(s: State, run: seq<Event>, max: nat)
    requires Alone(s) && Legal(s, run, max, 1)
    ensures SoundEvictions(s, run, max, 1)
    decreases |run|
  {
    if run != [] {
      AloneStep(s, run[0], max);
      AloneIsSound(Next(s, run[0], max), run[1..], max);
    }
  }

  /** One call at a time respects the configured limit exactly, with no condition. */
  lemma CapacityAlone(run: seq<Event>, max: nat)
    requires max > 0 && Legal(EMPTY, run, max, 1)
    ensures |After(EMPTY, run, max, 1).loaded| <= max
  {
    AloneIsSound(EMPTY, run, max);
    CapacityUnderConcurrency(run, max, 1);
  }

  // ---------- runs ----------

  /** `run` leads from `s` to `t`. */
  ghost predicate Leads(s: State, run: seq<Event>, t: State, max: nat, callers: nat) {
    Legal(s, run, max, callers) && After(s, run, max, callers) == t
  }

  lemma StepFirst(s: State, e: Event, rest: seq<Event>, t: State, max: nat, callers: nat)
    requires Possible(s, e) && (e.Start? ==> |s.calls| < callers) && Leads(Next(s, e, max), rest, t, max, callers)
    ensures Leads(s, [e] + rest, t, max, callers)
  {
    assert ([e] + rest)[1..] == rest;
  }

  lemma StepOff(s: State, a: seq<Event>, m: State, max: nat, callers: nat)
    requires Leads(s, a, m, max, callers) && a != []
    ensures Possible(s, a[0]) && (a[0].Start? ==> |s.calls| < callers)
    ensures Leads(Next(s, a[0], max), a[1..], m, max, callers)
  {
  }

  lemma {:induction false} RunsChain(s: State, a: seq<Event>, m: State, b: seq<Event>, t: State, max: nat, callers: nat)
    requires Leads(s, a, m, max, callers) && Leads(m, b, t, max, callers)
    ensures Leads(s, a + b, t, max, callers)
    decreases |a|
  {
    if a == [] {
      assert a + b == b;
    } else {
      StepOff(s, a, m, max, callers);
      var e, rest := a[0], a[1..];
      RunsChain(Next(s, e, max), rest, m, b, t, max, callers);
      StepFirst(s, e, rest + b, t, max, callers);
      assert a + b == [e] + (rest + b);
    }
  }

  /** One more step at the end of a run. */
  lemma ThenStep(s: State, run: seq<Event>, t: State, e: Event, max: nat, callers: nat)
    requires Leads(s, run, t, max, callers) && Possible(t, e) && (e.Start? ==> |t.calls| < callers)
    ensures Leads(s, run + [e], Next(t, e, max), max, callers)
  {
    StepFirst(t, e, [], Next(t, e, max), max, callers);
    assert [e] + [] == [e];
    RunsChain(s, run, t, [e], Next(t, e, max), max, callers);
  }

  predicate NoEviction(run: seq<Event>) {
    forall e :: e in run ==> !e.LookUp? && !e.DropVictim?
  }

  lemma {:induction false} NoEvictionIsSound(s: State, run: seq<Event>, max: nat, callers: nat)
    requires Legal(s, run, max, callers) && NoEviction(run)
    ensures SoundEvictions(s, run, max, callers)
    decreases |run|
  {
    if run != [] {
      NoEvictionIsSound(Next(s, run[0], max), run[1..], max, callers);
    }
  }

  // ---------- the bound is exact ----------

  /** `k` torrents, numbered below `k`, and no call in flight. */
  ghost predicate FirstOnes(s: State, k: nat) {
    s.calls == map[] && |s.loaded| == k && forall n :: n in s.loaded ==> n < k
  }

  /** Calls 0 to `m` - 1 have passed the capacity check, for torrents from `k` on. */
  function ClearedFor(k: nat, m: nat): (r: map<nat, Phase>)
    ensures |r| == m && forall c: nat :: c in r <==> c < m
  {
    if m == 0 then map[] else ClearedFor(k, m - 1)[m - 1 := Cleared(k + m - 1)]
  }

  /** One call runs through while no other is in flight and there is room. */
  lemma AddAlone(s: State, ih: Infohash, max: nat, callers: nat) returns (run: seq<Event>, t: State)
    requires s.calls == map[] && |s.loaded| < max && callers > 0
    ensures Leads(s, run, t, max, callers) && NoEviction(run)
    ensures t.calls == map[] && t.loaded == s.loaded + {ih}
  {
    var a := Next(s, Start(0, ih), max);
    var b := Next(a, Check(0), max);
    t := Next(b, Add(0, true), max);
    ThenStep(s, [], s, Start(0, ih), max, callers);
    ThenStep(s, [Start(0, ih)], a, Check(0), max, callers);
    ThenStep(s, [Start(0, ih), Check(0)], b, Add(0, true), max, callers);
    run := [Start(0, ih), Check(0)] + [Add(0, true)];
    assert [] + [Start(0, ih)] == [Start(0, ih)] && [Start(0, ih)] + [Check(0)] == [Start(0, ih), Check(0)];
  }

  lemma {:induction false} FillUp(k: nat, max: nat, callers: nat) returns (run: seq<Event>, t: State)
    requires k <= max && callers > 0
    ensures Leads(EMPTY, run, t, max, callers) && NoEviction(run) && FirstOnes(t, k)
  {
    if k == 0 {
      run, t := [], EMPTY;
    } else {
      var r, u := FillUp(k - 1, max, callers);
      assert k - 1 !in u.loaded;
      var q;
      q, t := AddAlone(u, k - 1, max, callers);
      RunsChain(EMPTY, r, u, q, t, max, callers);
      run := r + q;
    }
  }

  lemma {:induction false} AllPassTheCheck(s: State, i: nat, max: nat, callers: nat) returns (run: seq<Event>, t: State)
    requires |s.loaded| == max - 1 && i <= callers && s.calls == map[]
    ensures Leads(s, run, t, max, callers) && NoEviction(run)
    ensures t.loaded == s.loaded && t.calls == ClearedFor(max - 1, i)
  {
    if i == 0 {
      run, t := [], s;
    } else {
      var n, ih := i - 1, max - 1 + i - 1;
      var r, u := AllPassTheCheck(s, n, max, callers);
      var a := Next(u, Start(n, ih), max);
      ThenStep(s, r, u, Start(n, ih), max, callers);
      ThenStep(s, r + [Start(n, ih)], a, Check(n), max, callers);
      t := Next(a, Check(n), max);
      run := r + [Start(n, ih)] + [Check(n)];
    }
  }

  lemma {:induction false} AllAdd(s: State, k: nat, m: nat, max: nat, callers: nat) returns (run: seq<Event>, t: State)
    requires s.calls == ClearedFor(k, m) && forall n: nat :: k <= n < k + m ==> n !in s.loaded
    ensures Leads(s, run, t, max, callers) && |t.loaded| == |s.loaded| + m && NoEviction(run)
    decreases m
  {
    run, t := [], s;
    if m > 0 {
      var e := Add(m - 1, true);
      var a := Next(s, e, max);
      assert a.calls == ClearedFor(k, m - 1);
      var q;
      q, t := AllAdd(a, k, m - 1, max, callers);
      ThenStep(s, [], s, e, max, callers);
      assert [] + [e] == [e];
      RunsChain(s, [e], a, q, t, max, callers);
      run := [e] + q;
    }
  }

  /** The bound is reached for every limit and every number of callers, without any eviction: all of
      them pass the check one below the limit, and then all of them add. */
  lemma CapacityBoundIsReached(max: nat, callers: nat) returns (run: seq<Event>)
    requires max > 0 && callers > 0
    ensures Legal(EMPTY, run, max, callers) && SoundEvictions(EMPTY, run, max, callers)
    ensures |After(EMPTY, run, max, callers).loaded| == max + callers - 1
  {
    var fill, a := FillUp(max - 1, max, callers);
    var pass, b := AllPassTheCheck(a, callers, max, callers);
    var add, t := AllAdd(b, max - 1, callers, max, callers);
    RunsChain(EMPTY, fill, a, pass, b, max, callers);
    RunsChain(EMPTY, fill + pass, b, add, t, max, callers);
    run := fill + pass + add;
    NoEvictionIsSound(EMPTY, run, max, callers);
  }

  // ---------- no bound without the condition ----------

  /** Two calls find the client full, and both end up about to drop the same torrent: the second can
      pick it because it has been touched since the first deleted its record, all else being pinned. */
  lemma BothPick(s: State, v: Infohash, a: Infohash, b: Infohash, max: nat, callers: nat)
    returns (run: seq<Event>, t: State)
    requires s.calls == map[] && |s.loaded| >= max && callers >= 2 && v in s.loaded
    ensures Leads(s, run, t, max, callers) && t.loaded == s.loaded
    ensures t.calls == map[0 := Dropping(a, v, Load(s, v)), 1 := Dropping(b, v, Load(s, v))]
  {
    var u;
    run, u := BothFindItFull(s, a, b, max, callers);
    var q, w := PicksAndFinds(u, 0, v, max, callers);
    RunsChain(s, run, u, q, w, max, callers);
    run := run + q;
    q, t := PicksAndFinds(w, 1, v, max, callers);
    RunsChain(s, run, w, q, t, max, callers);
    run := run + q;
  }

  lemma FindsItFull(s: State, c: nat, ih: Infohash, max: nat, callers: nat) returns (run: seq<Event>, t: State)
    requires c !in s.calls && |s.loaded| >= max && |s.calls| < callers
    ensures Leads(s, run, t, max, callers) && t.loaded == s.loaded && t.loads == s.loads
    ensures t.calls == s.calls[c := Evicting(ih)]
  {
    var u := Next(s, Start(c, ih), max);
    t := Next(u, Check(c), max);
    ThenStep(s, [], s, Start(c, ih), max, callers);
    ThenStep(s, [] + [Start(c, ih)], u, Check(c), max, callers);
    run := [] + [Start(c, ih)] + [Check(c)];
  }

  lemma BothFindItFull(s: State, a: Infohash, b: Infohash, max: nat, callers: nat) returns (run: seq<Event>, t: State)
    requires s.calls == map[] && |s.loaded| >= max && callers >= 2
    ensures Leads(s, run, t, max, callers) && t.loaded == s.loaded && t.loads == s.loads
    ensures t.calls == map[0 := Evicting(a), 1 := Evicting(b)]
  {
    var u, q;
    run, u := FindsItFull(s, 0, a, max, callers);
    assert |u.calls| == 1;
    q, t := FindsItFull(u, 1, b, max, callers);
    RunsChain(s, run, u, q, t, max, callers);
    run := run + q;
  }

  lemma PicksAndFinds(s: State, c: nat, v: Infohash, max: nat, callers: nat) returns (run: seq<Event>, t: State)
    requires c in s.calls && s.calls[c].Evicting? && v in s.loaded
    ensures Leads(s, run, t, max, callers) && t.loaded == s.loaded && t.loads == s.loads
    ensures t.calls == s.calls[c := Dropping(s.calls[c].ih, v, Load(s, v))]
  {
    var s1 := Next(s, Touch(v), max);
    var others := s1.used.Keys - {v};
    var s2 := Next(s1, Pin(others), max);
    var s3 := Next(s2, Pick(c, v), max);
    t := Next(s3, LookUp(c), max);
    ThenStep(s, [], s, Touch(v), max, callers);
    ThenStep(s, [] + [Touch(v)], s1, Pin(others), max, callers);
    ThenStep(s, [] + [Touch(v)] + [Pin(others)], s2, Pick(c, v), max, callers);
    ThenStep(s, [] + [Touch(v)] + [Pin(others)] + [Pick(c, v)], s3, LookUp(c), max, callers);
    run := [] + [Touch(v)] + [Pin(others)] + [Pick(c, v)] + [LookUp(c)];
  }

  /** One call drops the victim it has found and adds its own torrent. */
  lemma DropsOne(s: State, c: nat, max: nat, callers: nat) returns (run: seq<Event>, t: State)
    requires c in s.calls && s.calls[c].Dropping?
    ensures Leads(s, run, t, max, callers) && t.loaded == s.loaded - {s.calls[c].victim}
    ensures t.calls == s.calls[c := Cleared(s.calls[c].ih)]
  {
    t := Next(s, DropVictim(c, true), max);
    ThenStep(s, [], s, DropVictim(c, true), max, callers);
    run := [] + [DropVictim(c, true)];
  }

  lemma AddsOne(s: State, c: nat, max: nat, callers: nat) returns (run: seq<Event>, t: State)
    requires c in s.calls && s.calls[c].Cleared?
    ensures Leads(s, run, t, max, callers) && run == [Add(c, true)]
    ensures t.loaded == s.loaded + {s.calls[c].ih} && t.calls == s.calls - {c}
  {
    t := Next(s, Add(c, true), max);
    ThenStep(s, [], s, Add(c, true), max, callers);
    run := [Add(c, true)];
    assert [] + run == run;
  }

  lemma BothDrop(s: State, v: Infohash, a: Infohash, b: Infohash, load: nat, max: nat, callers: nat)
    returns (run: seq<Event>, t: State)
    requires s.calls == map[0 := Dropping(a, v, load), 1 := Dropping(b, v, load)]
    ensures Leads(s, run, t, max, callers)
    ensures t.calls == map[0 := Cleared(a), 1 := Cleared(b)] && t.loaded == s.loaded - {v}
  {
    var u, q;
    run, u := DropsOne(s, 0, max, callers);
    assert u.calls == map[0 := Cleared(a), 1 := Dropping(b, v, load)];
    q, t := DropsOne(u, 1, max, callers);
    RunsChain(s, run, u, q, t, max, callers);
    run := run + q;
  }

  lemma BothAdd(s: State, a: Infohash, b: Infohash, max: nat, callers: nat) returns (run: seq<Event>, t: State)
    requires s.calls == map[0 := Cleared(a), 1 := Cleared(b)]
    ensures Leads(s, run, t, max, callers) && t.calls == map[] && t.loaded == s.loaded + {a, b}
  {
    var u, q;
    run, u := AddsOne(s, 0, max, callers);
    q, t := AddsOne(u, 1, max, callers);
    RunsChain(s, run, u, q, t, max, callers);
    run := run + q;
  }

  /** Without the condition there is no bound at all: with two calls at a time, each pair of evictions
      that drop the same torrent lets the client grow by one more. */
  lemma {:induction false} CapacityIsUnbounded(n: nat, max: nat, callers: nat) returns (run: seq<Event>, t: State)
    requires 0 < max <= n && callers >= 2
    ensures Leads(EMPTY, run, t, max, callers) && t.calls == map[] && |t.loaded| == n
    ensures forall k :: k in t.loaded ==> k < 2 * n
    decreases n
  {
    if n == max {
      run, t := FillUp(max, max, callers);
    } else {
      var u;
      run, u := CapacityIsUnbounded(n - 1, max, callers);
      var v :| v in u.loaded;
      var a, b := 2 * n - 2, 2 * n - 1;
      var q, w := BothPick(u, v, a, b, max, callers);
      RunsChain(EMPTY, run, u, q, w, max, callers);
      run := run + q;
      var x;
      q, x := BothDrop(w, v, a, b, Load(u, v), max, callers);
      RunsChain(EMPTY, run, w, q, x, max, callers);
      run := run + q;
      q, t := BothAdd(x, a, b, max, callers);
      RunsChain(EMPTY, run, x, q, t, max, callers);
      run := run + q;
      assert t.loaded == u.loaded - {v} + {a} + {b};
    }
  }
}
