/** Episode lists, and renumbering a continuous count by season (addon.go). */
module Episodes {
  import opened Basics

  datatype Episode = Episode(season: int, number: int)

  predicate Before(a: Episode, b: Episode) {
    a.season < b.season || (a.season == b.season && a.number < b.number)
  }

  /** By season, then by number; the same pair may be listed twice. */
  ghost predicate Sorted(eps: seq<Episode>) {
    forall i, j :: 0 <= i < j < |eps| ==> !Before(eps[j], eps[i])
  }

  ghost predicate StrictlySorted(eps: seq<Episode>) {
    forall i, j :: 0 <= i < j < |eps| ==> Before(eps[i], eps[j])
  }

  // ---------- building the list ----------

  predicate Listed(e: Episode) {
    e.season > 0 && e.number > 0
  }

  function IsListed(): Episode -> bool {
    (e: Episode) => Listed(e)
  }

  function Inserted(r: seq<Episode>, k: nat, e: Episode): seq<Episode>
    requires k <= |r|
  {
    r[..k] + [e] + r[k..]
  }

  lemma InsertKeepsSorted(r: seq<Episode>, k: nat, e: Episode)
    requires k <= |r| && Sorted(r)
    requires forall j :: k <= j < |r| ==> Before(e, r[j])
    requires k > 0 ==> !Before(e, r[k - 1])
    ensures Sorted(Inserted(r, k, e))
  {
    var t := Inserted(r, k, e);
    forall j | 0 <= j < k ensures !Before(e, r[j]) {
      assert j < k - 1 ==> !Before(r[k - 1], r[j]);
    }
    forall i, j | 0 <= i < j < |t| ensures !Before(t[j], t[i]) {
      var p, q := if i > k then i - 1 else i, if j > k then j - 1 else j;
      assert i != k ==> t[i] == r[p];
      assert j != k ==> t[j] == r[q];
    }
  }

  lemma InsertAdds(r: seq<Episode>, k: nat, e: Episode)
    requires k <= |r|
    ensures multiset(Inserted(r, k, e)) == multiset(r) + multiset{e}
  {
    assert r == r[..k] + r[k..];
  }

  /** The episode list of a title: what `resolveMeta` keeps of the catalogue's videos, in order. */
  method EpisodeList(videos: seq<Episode>) returns (eps: seq<Episode>)
    ensures Sorted(eps) && multiset(eps) == multiset(Filter(IsListed(), videos))
    ensures forall e :: e in eps <==> e in videos && e.season >= 1 && e.number >= 1
  {
    var kept := [];
    for i := 0 to |videos|
      invariant kept == Filter(IsListed(), videos[..i]) && forall e :: e in kept ==> Listed(e)
    {
      assert videos[..i + 1][..i] == videos[..i];
      if Listed(videos[i]) {
        kept := kept + [videos[i]];
      }
    }
    assert videos[..|videos|] == videos;
    FilterMembers(IsListed(), videos);
    eps := SortList(kept);
    forall e ensures e in eps <==> e in kept {
      assert e in eps <==> e in multiset(eps);
      assert e in kept <==> e in multiset(kept);
    }
  }

  /** Stands for `sort.Slice`. */
  method SortList(kept: seq<Episode>) returns (eps: seq<Episode>)
    ensures Sorted(eps) && multiset(eps) == multiset(kept)
  {
    eps := [];
    for i := 0 to |kept|
      invariant Sorted(eps) && multiset(eps) == multiset(kept[..i])
    {
      var k := |eps|;
      while k > 0 && Before(kept[i], eps[k - 1])
        invariant 0 <= k <= |eps|
        invariant forall j :: k <= j < |eps| ==> Before(kept[i], eps[j])
      {
        k := k - 1;
      }
      InsertKeepsSorted(eps, k, kept[i]);
      InsertAdds(eps, k, kept[i]);
      assert kept[..i + 1] == kept[..i] + [kept[i]];
      eps := eps[..k] + [kept[i]] + eps[k..];
    }
    assert kept[..|kept|] == kept;
  }

  /** Any two sorted orders of the same list are the same list, so it does not matter how the sort
      breaks ties. */
  lemma {:induction false} SortedUnique(a: seq<Episode>, b: seq<Episode>)
    requires Sorted(a) && Sorted(b) && multiset(a) == multiset(b)
    ensures a == b
    decreases |a|
  {
    assert |multiset(a)| == |multiset(b)|;
    if a != [] {
      LastIsLatest(a, b);
      LastIsLatest(b, a);
      var n := |a| - 1;
      WithoutLast(a);
      WithoutLast(b);
      SortedUnique(a[..n], b[..n]);
    }
  }

  lemma WithoutLast(a: seq<Episode>)
    requires a != []
    ensures a == a[..|a| - 1] + [a[|a| - 1]]
    ensures multiset(a[..|a| - 1]) == multiset(a) - multiset{a[|a| - 1]}
  {
    assert a == a[..|a| - 1] + [a[|a| - 1]];
  }

  lemma LastIsLatest(a: seq<Episode>, b: seq<Episode>)
    requires Sorted(a) && a != [] && b != [] && multiset(a) == multiset(b)
    ensures !Before(a[|a| - 1], b[|b| - 1])
  {
    assert b[|b| - 1] in multiset(a);
    var i :| 0 <= i < |a| && a[i] == b[|b| - 1];
  }

  // ---------- renumbering ----------

  function InSeason(eps: seq<Episode>, season: int): (n: nat)
    ensures n <= |eps|
  {
    if eps == [] then 0
    else InSeason(eps[..|eps| - 1], season) + if eps[|eps| - 1].season == season then 1 else 0
  }

  /** A number of the first season that does not fit it counts through the whole list. */
  function Remapped(eps: seq<Episode>, e: Episode): Episode {
    if eps == [] || e.season != eps[0].season then e
    else if e.number <= InSeason(eps, e.season) then e
    else if e.number <= |eps| then eps[e.number - 1]
    else e
  }

  /** `remapEpisode` */
  method RemapEpisode(eps: seq<Episode>, season: int, ep: int) returns (s: int, n: int)
    ensures Episode(s, n) == Remapped(eps, Episode(season, ep))
  {
    if |eps| == 0 {
      return season, ep;
    }
    if season != eps[0].season {
      return season, ep;
    }
    var inSeason := 0;
    for i := 0 to |eps|
      invariant inSeason == InSeason(eps[..i], season)
    {
      assert eps[..i + 1][..i] == eps[..i];
      if eps[i].season == season {
        inSeason := inSeason + 1;
      }
    }
    assert eps[..|eps|] == eps;
    if ep <= inSeason {
      return season, ep;
    }
    if ep <= |eps| {
      return eps[ep - 1].season, eps[ep - 1].number;
    }
    return season, ep;
  }

  /** In a sorted list the first season comes first: its episodes are exactly the first ones. */
  lemma {:induction false} FirstSeasonIsPrefix(eps: seq<Episode>)
    requires eps != [] && Sorted(eps)
    ensures var n := InSeason(eps, eps[0].season);
      && 0 < n
      && (forall k :: 0 <= k < n ==> eps[k].season == eps[0].season)
      && (forall k :: n <= k < |eps| ==> eps[k].season > eps[0].season)
  {
    var m := |eps| - 1;
    assert !Before(eps[m], eps[0]) || m == 0;
    if m > 0 {
      FirstSeasonIsPrefix(eps[..m]);
      if eps[m].season == eps[0].season {
        assert forall k :: 0 <= k < m ==> !Before(eps[m], eps[k]);
      }
    } else {
      assert eps[..0] == [];
    }
  }

  /** What renumbering does: only a number of the first season that is larger than that season and not
      larger than the list is read as a place in the list; everything else is left alone. `n` is how
      many episodes the first season has. */
  lemma RemapMeans(eps: seq<Episode>, e: Episode, n: nat)
    requires Sorted(eps) && n <= |eps|
    requires forall k :: 0 <= k < |eps| ==> (eps[k].season == eps[0].season <==> k < n)
    ensures Remapped(eps, e) ==
      if eps != [] && e.season == eps[0].season && n < e.number <= |eps| then eps[e.number - 1] else e
  {
    if eps != [] {
      FirstSeasonIsPrefix(eps);
      var m := InSeason(eps, eps[0].season);
      assert m < |eps| ==> eps[m].season > eps[0].season;
      assert n < |eps| ==> eps[n].season != eps[0].season;
      assert m == n;
    }
  }

  /** Renumbering a renumbered episode changes nothing. */
  lemma RemapIsIdempotent(eps: seq<Episode>, e: Episode)
    requires Sorted(eps)
    ensures Remapped(eps, Remapped(eps, e)) == Remapped(eps, e)
  {
    if eps != [] {
      FirstSeasonIsPrefix(eps);
    }
  }

  /** Counting on through the first season never goes back and never skips onto the same episode. */
  lemma RemapKeepsOrder(eps: seq<Episode>, i: int, j: int)
    requires StrictlySorted(eps) && i < j <= |eps|
    ensures eps != [] ==>
      Before(Remapped(eps, Episode(eps[0].season, i)), Remapped(eps, Episode(eps[0].season, j)))
  {
    if eps != [] {
      FirstSeasonIsPrefix(eps);
    }
  }

  /** Every listed episode of a later season is reached, by its place in the list and no other
      number. */
  lemma LaterSeasonsAreReached(eps: seq<Episode>, k: nat, i: int)
    requires StrictlySorted(eps) && k < |eps| && eps[k].season != eps[0].season
    ensures Remapped(eps, Episode(eps[0].season, i)) == eps[k] <==> i == k + 1
  {
    FirstSeasonIsPrefix(eps);
  }

  /** The numbers read the list in order exactly when the first season is numbered from one without
      a gap. */
  lemma RemapReadsTheList(eps: seq<Episode>)
    requires eps != [] && Sorted(eps)
    ensures (forall i :: 1 <= i <= |eps| ==> Remapped(eps, Episode(eps[0].season, i)) == eps[i - 1])
       <==> (forall k :: 0 <= k < InSeason(eps, eps[0].season) ==> eps[k].number == k + 1)
  {
    FirstSeasonIsPrefix(eps);
    var n := InSeason(eps, eps[0].season);
    if forall i :: 1 <= i <= |eps| ==> Remapped(eps, Episode(eps[0].season, i)) == eps[i - 1] {
      forall k | 0 <= k < n ensures eps[k].number == k + 1 {
        assert Remapped(eps, Episode(eps[0].season, k + 1)) == eps[(k + 1) - 1];
      }
    }
  }

  /** A listed episode of the first season should be left alone. It is exactly when its number does
      not exceed the season's count, or exceeds the whole list: a season with a gap in its numbers
      has its last episodes taken for a continuous count. */
  lemma ListedEpisodeStays(eps: seq<Episode>, e: Episode)
    requires Sorted(eps) && e in eps && e.season == eps[0].season
    ensures Remapped(eps, e) == e <==> e.number <= InSeason(eps, e.season) || e.number > |eps|
  {
    FirstSeasonIsPrefix(eps);
  }

  /** Season one lists episodes 1, 2 and 5: asking for the fifth plays the second of season two. */
  lemma GapMovesAListedEpisode()
    ensures var eps := [Episode(1, 1), Episode(1, 2), Episode(1, 5), Episode(2, 1), Episode(2, 2)];
      StrictlySorted(eps) && Episode(1, 5) in eps && Remapped(eps, Episode(1, 5)) == Episode(2, 2)
  {
    var eps := [Episode(1, 1), Episode(1, 2), Episode(1, 5), Episode(2, 1), Episode(2, 2)];
    assert eps[2] == Episode(1, 5);
    FirstSeasonIsPrefix(eps);
    assert eps[InSeason(eps, 1) - 1].season == 1;
  }

  // ---------- the lists kept in memory ----------

  const LIST_CAP: nat := 4096

  class EpisodeCache {
    var lists: map<string, seq<Episode>>
    var count: int

    ghost predicate Valid()
      reads this
    {
      count == |lists| <= LIST_CAP
    }

    constructor ()
      ensures Valid() && lists == map[]
    {
      lists, count := map[], 0;
    }

    /** `storeEpisodeList`: a full cache is emptied rather than left to grow. */
    method StoreEpisodeList(id: string, eps: seq<Episode>)
      requires Valid()
      modifies this
      ensures Valid()
      ensures lists == if id !in old(lists) && |old(lists)| == 4096 then map[id := eps] else old(lists)[id := eps]
    {
      if id !in lists {
        count := count + 1;
        if count > LIST_CAP {
          lists := map[];
          count := 1;
        }
      }
      lists := lists[id := eps];
    }

    /** `fixEpisodeNumber` */
    method FixEpisodeNumber(id: string, season: int, ep: int) returns (s: int, n: int)
      requires Valid()
      ensures ep <= 0 || season <= 0 || id !in lists ==> s == season && n == ep
      ensures ep > 0 && season > 0 && id in lists ==> Episode(s, n) == Remapped(lists[id], Episode(season, ep))
      ensures ep > 0 && season > 0 && id in lists && Sorted(lists[id]) ==>
        Remapped(lists[id], Episode(s, n)) == Episode(s, n)
    {
      if ep <= 0 || season <= 0 {
        return season, ep;
      }
      if id !in lists {
        return season, ep;
      }
      if Sorted(lists[id]) {
        RemapIsIdempotent(lists[id], Episode(season, ep));
      }
      s, n := RemapEpisode(lists[id], season, ep);
    }
  }
}
