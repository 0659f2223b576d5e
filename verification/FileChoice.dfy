/** Choosing the file of a torrent to play (engine.go). */
module FileChoice {

  /** What is read off a path: whether it names a video, its lower-case form, whether that mentions
      a sample, which episode it states, and the words of its file name. */
  datatype Paths = Paths(
    isVideo: string -> bool,
    lower: string -> string,
    isSample: string -> bool,
    signal: (string, int, int) -> int,
    baseWords: string -> set<string>)

  datatype Choice = Chosen(idx: nat) | NoFiles | NoPlayable | NoEpisode

  // ---------- the largest file ----------

  /** The first of the largest among the files marked, or -1. */
  function FirstLargest(ok: seq<bool>, sizes: seq<int>): (i: int)
    requires |ok| == |sizes|
    ensures -1 <= i < |ok|
  {
    if ok == [] then -1
    else
      var n := |ok| - 1;
      var best := FirstLargest(ok[..n], sizes[..n]);
      if ok[n] && (best < 0 || sizes[n] > sizes[best]) then n else best
  }

  ghost predicate IsFirstLargest(ok: seq<bool>, sizes: seq<int>, i: nat)
    requires |ok| == |sizes|
  {
    && i < |ok| && ok[i]
    && forall j :: 0 <= j < |ok| && ok[j] ==> sizes[j] <= sizes[i] && (j < i ==> sizes[j] < sizes[i])
  }

  lemma {:induction false} FirstLargestMeans(ok: seq<bool>, sizes: seq<int>)
    requires |ok| == |sizes|
    ensures FirstLargest(ok, sizes) < 0 <==> forall j :: 0 <= j < |ok| ==> !ok[j]
    ensures FirstLargest(ok, sizes) >= 0 ==> IsFirstLargest(ok, sizes, FirstLargest(ok, sizes))
  {
    if ok != [] {
      var n := |ok| - 1;
      FirstLargestMeans(ok[..n], sizes[..n]);
      var best := FirstLargest(ok[..n], sizes[..n]);
      assert forall j :: 0 <= j < n ==> ok[..n][j] == ok[j] && sizes[..n][j] == sizes[j];
    }
  }

  lemma FirstLargestNext(ok: seq<bool>, sizes: seq<int>, i: nat)
    requires |ok| == |sizes| && i < |ok|
    ensures var best := FirstLargest(ok[..i], sizes[..i]);
      FirstLargest(ok[..i + 1], sizes[..i + 1]) == if ok[i] && (best < 0 || sizes[i] > sizes[best]) then i else best
  {
    assert ok[..i + 1][..i] == ok[..i] && sizes[..i + 1][..i] == sizes[..i];
  }

  /** The videos that are no samples; a lone file is taken for what it is. */
  function Playable(x: Paths, paths: seq<string>): (ok: seq<bool>)
    ensures |ok| == |paths|
  {
    seq(|paths|, i requires 0 <= i < |paths| =>
      x.isVideo(x.lower(paths[i])) && !(x.isSample(x.lower(paths[i])) && |paths| > 1))
  }

  function All(n: nat): (ok: seq<bool>)
    ensures |ok| == n
  {
    seq(n, i requires 0 <= i < n => true)
  }

  function Largest(x: Paths, paths: seq<string>, sizes: seq<int>): int
    requires |paths| == |sizes|
  {
    var best := FirstLargest(Playable(x, paths), sizes);
    if best >= 0 then best else FirstLargest(All(|paths|), sizes)
  }

  function Default(x: Paths, paths: seq<string>, sizes: seq<int>, want: int): Choice
    requires |paths| == |sizes|
  {
    if paths == [] then NoFiles
    else if 0 <= want < |paths| then Chosen(want)
    else if Largest(x, paths, sizes) < 0 then NoPlayable
    else Chosen(Largest(x, paths, sizes))
  }

  method LargestOf(ok: seq<bool>, sizes: seq<int>) returns (best: int)
    requires |ok| == |sizes|
    ensures best == FirstLargest(ok, sizes)
  {
    best := -1;
    for i := 0 to |ok|
      invariant -1 <= best < i && best == FirstLargest(ok[..i], sizes[..i])
    {
      FirstLargestNext(ok, sizes, i);
      if !ok[i] {
        continue;
      }
      if best < 0 || sizes[i] > sizes[best] {
        best := i;
      }
    }
    assert ok[..|ok|] == ok && sizes[..|ok|] == sizes;
  }

  /** `chooseFile` */
  method ChooseFile(x: Paths, paths: seq<string>, sizes: seq<int>, want: int) returns (c: Choice)
    requires |paths| == |sizes|
    ensures c == Default(x, paths, sizes, want)
  {
    if |paths| == 0 {
      return NoFiles;
    }
    if want >= 0 && want < |paths| {
      return Chosen(want);
    }
    var best := LargestOf(Playable(x, paths), sizes);
    if best < 0 {
      best := LargestOf(All(|paths|), sizes);
    }
    if best < 0 {
      return NoPlayable;
    }
    return Chosen(best);
  }

  /** A video by its lower-case name, and, unless it is all there is, no sample. */
  predicate IsPlayable(x: Paths, paths: seq<string>, i: nat)
    requires i < |paths|
  {
    x.isVideo(x.lower(paths[i])) && (|paths| == 1 || !x.isSample(x.lower(paths[i])))
  }

  /** File `i` qualifies, none that does is larger, and none as large comes before it. */
  ghost predicate IsFirstOfLargest(qualifies: nat -> bool, sizes: seq<int>, i: nat) {
    && i < |sizes| && qualifies(i)
    && forall j: nat :: j < |sizes| && qualifies(j) ==> sizes[j] <= sizes[i] && (sizes[j] == sizes[i] ==> i <= j)
  }

  /** A file that is asked for is taken. Otherwise a torrent that has files always yields one; it is a
      playable one whenever there is any, and then the first of the largest of those. */
  lemma DefaultMeans(x: Paths, paths: seq<string>, sizes: seq<int>, want: int)
    requires |paths| == |sizes|
    ensures 0 <= want < |paths| ==> Default(x, paths, sizes, want) == Chosen(want)
    ensures Default(x, paths, sizes, want) == NoFiles <==> paths == []
    ensures var c := Default(x, paths, sizes, want);
      var some := exists i :: 0 <= i < |paths| && IsPlayable(x, paths, i);
      var plays := (i: nat) => i < |paths| && (some ==> IsPlayable(x, paths, i));
      paths != [] && !(0 <= want < |paths|) ==> c.Chosen? && IsFirstOfLargest(plays, sizes, c.idx)
  {
    var ok := Playable(x, paths);
    assert forall i :: 0 <= i < |paths| ==> (ok[i] <==> IsPlayable(x, paths, i));
    FirstLargestMeans(ok, sizes);
    FirstLargestMeans(All(|paths|), sizes);
  }

  // ---------- the file for an episode ----------

  ghost predicate States(x: Paths, p: string, season: int, ep: int) {
    x.isVideo(p) && x.signal(p, season, ep) > 0
  }

  ghost predicate StatesAnother(x: Paths, p: string, season: int, ep: int) {
    x.isVideo(p) && x.signal(p, season, ep) < 0
  }

  function Videos(x: Paths, paths: seq<string>): nat {
    if paths == [] then 0 else Videos(x, paths[..|paths| - 1]) + if x.isVideo(paths[|paths| - 1]) then 1 else 0
  }

  function VideoPlaces(x: Paths, paths: seq<string>): set<nat> {
    set i: nat | i < |paths| && x.isVideo(paths[i])
  }

  /** `Videos` is how many there are. */
  lemma {:induction false} VideosCount(x: Paths, paths: seq<string>)
    ensures Videos(x, paths) == |VideoPlaces(x, paths)|
  {
    if paths == [] {
      assert VideoPlaces(x, paths) == {};
    } else {
      var n := |paths| - 1;
      VideosCount(x, paths[..n]);
      assert VideoPlaces(x, paths) == VideoPlaces(x, paths[..n]) + if x.isVideo(paths[n]) then {n} else {};
    }
  }

  /** `chooseFileForEpisode`: the first video that states the episode. Failing that, a torrent whose
      videos state other episodes, or with more than three videos, does not have the episode; any
      other is taken for a single work. */
  method ChooseFileForEpisode(x: Paths, paths: seq<string>, sizes: seq<int>, want: int, season: int, ep: int)
    returns (c: Choice)
    requires |paths| == |sizes|
    ensures 0 <= want < |paths| ==> c == Chosen(want)
    ensures !(0 <= want < |paths|) && ep <= 0 ==> c == Default(x, paths, sizes, want)
    ensures !(0 <= want < |paths|) && ep > 0 ==>
      if exists i :: 0 <= i < |paths| && x.isVideo(paths[i]) && x.signal(paths[i], season, ep) > 0 then
        && c.Chosen? && c.idx < |paths| && x.isVideo(paths[c.idx]) && x.signal(paths[c.idx], season, ep) > 0
        && forall j :: 0 <= j < c.idx ==> !(x.isVideo(paths[j]) && x.signal(paths[j], season, ep) > 0)
      else if (exists i :: 0 <= i < |paths| && x.isVideo(paths[i]) && x.signal(paths[i], season, ep) < 0)
              || Videos(x, paths) > 3 then
        c == NoEpisode
      else
        c == Default(x, paths, sizes, want)
  {
    if want >= 0 && want < |paths| {
      return Chosen(want);
    }
    if ep > 0 {
      var numbered, videos := 0, 0;
      for i := 0 to |paths|
        invariant forall j :: 0 <= j < i ==> !States(x, paths[j], season, ep)
        invariant numbered >= 0 && (numbered > 0 <==> exists j :: 0 <= j < i && StatesAnother(x, paths[j], season, ep))
        invariant videos == Videos(x, paths[..i])
      {
        assert paths[..i + 1][..i] == paths[..i];
        if !x.isVideo(paths[i]) {
          continue;
        }
        videos := videos + 1;
        var sig := x.signal(paths[i], season, ep);
        if sig > 0 {
          return Chosen(i);
        } else if sig < 0 {
          numbered := numbered + 1;
        }
      }
      assert paths[..|paths|] == paths;
      if numbered > 0 {
        return NoEpisode;
      }
      if videos > 3 {
        return NoEpisode;
      }
    }
    c := ChooseFile(x, paths, sizes, want);
  }

  // ---------- the file for a title ----------

  /** The words of the videos' names, by file; nothing for the other files. */
  datatype Words = NotVideo | Of(words: set<string>)

  function WordSets(x: Paths, paths: seq<string>): (sets: seq<Words>)
    ensures |sets| == |paths|
  {
    seq(|paths|, i requires 0 <= i < |paths| => if x.isVideo(paths[i]) then Of(x.baseWords(paths[i])) else NotVideo)
  }

  /** Every video carries the word, so it does not tell them apart. */
  predicate Common(sets: seq<Words>, w: string) {
    forall i :: 0 <= i < |sets| && sets[i].Of? ==> w in sets[i].words
  }

  function Discriminating(sets: seq<Words>, ws: seq<string>): seq<string> {
    if ws == [] then []
    else Discriminating(sets, ws[..|ws| - 1]) + (if Common(sets, ws[|ws| - 1]) then [] else [ws[|ws| - 1]])
  }

  /** How many of these words a name carries, counting a repeated word as often as it is asked for. */
  function Hits(set0: Words, ws: seq<string>): nat {
    if ws == [] || set0.NotVideo? then 0
    else Hits(set0, ws[..|ws| - 1]) + if ws[|ws| - 1] in set0.words then 1 else 0
  }

  function AllHits(sets: seq<Words>, disc: seq<string>): (h: seq<nat>)
    ensures |h| == |sets|
  {
    seq(|sets|, i requires 0 <= i < |sets| => Hits(sets[i], disc))
  }

  /** The first of the largest among those with the most hits, or -1 when nothing has any. */
  function FirstBest(hits: seq<nat>, sizes: seq<int>): (i: int)
    requires |hits| == |sizes|
    ensures -1 <= i < |hits|
  {
    if hits == [] then -1
    else
      var n := |hits| - 1;
      var best := FirstBest(hits[..n], sizes[..n]);
      if Beats(hits, sizes, n, best) then n else best
  }

  predicate Beats(hits: seq<nat>, sizes: seq<int>, i: int, best: int)
    requires |hits| == |sizes| && -1 <= best < |hits| && 0 <= i < |hits|
  {
    hits[i] > 0 && (best < 0 || hits[i] > hits[best] || (hits[i] == hits[best] && sizes[i] > sizes[best]))
  }

  /** File `i` has hits, none has more, none with as many is larger, and none as good comes first. */
  ghost predicate IsFirstBest(hits: seq<nat>, sizes: seq<int>, i: nat)
    requires |hits| == |sizes|
  {
    && i < |hits| && hits[i] > 0
    && forall j :: 0 <= j < |hits| ==>
         && hits[j] <= hits[i]
         && (hits[j] == hits[i] ==> sizes[j] <= sizes[i] && (j < i ==> sizes[j] < sizes[i]))
  }

  ghost predicate NoHits(hits: seq<nat>) {
    forall j :: 0 <= j < |hits| ==> hits[j] == 0
  }

  lemma {:induction false} FirstBestMeans(hits: seq<nat>, sizes: seq<int>)
    requires |hits| == |sizes|
    ensures FirstBest(hits, sizes) < 0 <==> NoHits(hits)
    ensures FirstBest(hits, sizes) >= 0 ==> IsFirstBest(hits, sizes, FirstBest(hits, sizes))
  {
    if hits != [] {
      var n := |hits| - 1;
      FirstBestMeans(hits[..n], sizes[..n]);
      var best := FirstBest(hits[..n], sizes[..n]);
      assert forall j :: 0 <= j < n ==> hits[..n][j] == hits[j] && sizes[..n][j] == sizes[j];
    }
  }

  function ForTitle(x: Paths, paths: seq<string>, sizes: seq<int>, want: int, ws: seq<string>): Choice
    requires |paths| == |sizes|
  {
    var sets := WordSets(x, paths);
    var best := FirstBest(AllHits(sets, Discriminating(sets, ws)), sizes);
    if 0 <= want < |paths| then Chosen(want)
    else if best >= 0 then Chosen(best)
    else Default(x, paths, sizes, want)
  }

  method DiscriminatingWords(sets: seq<Words>, ws: seq<string>) returns (disc: seq<string>)
    ensures disc == Discriminating(sets, ws)
  {
    disc := [];
    for k := 0 to |ws|
      invariant disc == Discriminating(sets, ws[..k])
    {
      assert ws[..k + 1][..k] == ws[..k];
      var inAll, found := true, false;
      for i := 0 to |sets|
        invariant inAll && (found <==> exists j :: 0 <= j < i && sets[j].Of?)
        invariant forall j :: 0 <= j < i && sets[j].Of? ==> ws[k] in sets[j].words
      {
        if sets[i].NotVideo? {
          continue;
        }
        found := true;
        if ws[k] !in sets[i].words {
          inAll := false;
          break;
        }
      }
      if found && !inAll {
        disc := disc + [ws[k]];
      }
    }
    assert ws[..|ws|] == ws;
  }

  method CountHits(set0: Words, disc: seq<string>) returns (hits: nat)
    requires set0.Of?
    ensures hits == Hits(set0, disc)
  {
    hits := 0;
    for k := 0 to |disc|
      invariant hits == Hits(set0, disc[..k])
    {
      assert disc[..k + 1][..k] == disc[..k];
      if disc[k] in set0.words {
        hits := hits + 1;
      }
    }
    assert disc[..|disc|] == disc;
  }

  method BestByHits(sets: seq<Words>, disc: seq<string>, sizes: seq<int>) returns (best: int, bestHits: nat)
    requires |sets| == |sizes|
    ensures best == FirstBest(AllHits(sets, disc), sizes)
    ensures bestHits > 0 <==> best >= 0
  {
    best, bestHits := -1, 0;
    ghost var all := AllHits(sets, disc);
    for i := 0 to |sets|
      invariant -1 <= best < i && best == FirstBest(all[..i], sizes[..i])
      invariant bestHits == if best < 0 then 0 else all[best]
      invariant best >= 0 ==> bestHits > 0
    {
      assert all[..i + 1][..i] == all[..i] && sizes[..i + 1][..i] == sizes[..i];
      FirstBestMeans(all[..i], sizes[..i]);
      if sets[i].NotVideo? {
        continue;
      }
      var hits := CountHits(sets[i], disc);
      assert hits == all[i];
      if hits > bestHits || (hits == bestHits && best >= 0 && hits > 0 && sizes[i] > sizes[best]) {
        best, bestHits := i, hits;
      }
    }
    assert all[..|sets|] == all && sizes[..|sets|] == sizes;
  }

  /** `chooseFileForTitle`, given the words of the hints. */
  method ChooseFileForTitle(x: Paths, paths: seq<string>, sizes: seq<int>, want: int, ws: seq<string>)
    returns (c: Choice)
    requires |paths| == |sizes|
    ensures c == ForTitle(x, paths, sizes, want, ws)
  {
    if want >= 0 && want < |paths| {
      return Chosen(want);
    }
    if |ws| == 0 {
      FirstBestMeans(AllHits(WordSets(x, paths), []), sizes);
      c := ChooseFile(x, paths, sizes, want);
      return;
    }
    var sets := WordSets(x, paths);
    var disc := DiscriminatingWords(sets, ws);
    var best, bestHits := BestByHits(sets, disc, sizes);
    if best >= 0 && bestHits > 0 {
      return Chosen(best);
    }
    c := ChooseFile(x, paths, sizes, want);
  }

  /** The hint words that name `i` carries and some video does not, by their places among the hints. */
  function Telling(x: Paths, paths: seq<string>, ws: seq<string>, i: nat): set<nat>
    requires i < |paths|
  {
    set k: nat | k < |ws| && Tells(x, paths, ws[k], i)
  }

  /** A video that carries a word another one lacks. */
  predicate Tells(x: Paths, paths: seq<string>, w: string, i: nat)
    requires i < |paths|
  {
    && x.isVideo(paths[i]) && w in x.baseWords(paths[i])
    && exists j :: 0 <= j < |paths| && x.isVideo(paths[j]) && w !in x.baseWords(paths[j])
  }

  lemma TellingNext(x: Paths, paths: seq<string>, ws: seq<string>, i: nat)
    requires i < |paths| && ws != []
    ensures var n := |ws| - 1;
      |Telling(x, paths, ws, i)| == |Telling(x, paths, ws[..n], i)| + if Tells(x, paths, ws[n], i) then 1 else 0
  {
    var n := |ws| - 1;
    assert Telling(x, paths, ws, i) == Telling(x, paths, ws[..n], i) + if Tells(x, paths, ws[n], i) then {n} else {};
  }

  lemma TellsMeans(x: Paths, paths: seq<string>, w: string, i: nat)
    requires i < |paths|
    ensures var sets := WordSets(x, paths);
      Tells(x, paths, w, i) <==> !Common(sets, w) && Carries(sets[i], w)
  {
    CommonMeans(x, paths, w);
  }

  lemma {:induction false} HitsAreTelling(x: Paths, paths: seq<string>, ws: seq<string>, i: nat)
    requires i < |paths|
    ensures var sets := WordSets(x, paths);
      Hits(sets[i], Discriminating(sets, ws)) == |Telling(x, paths, ws, i)|
  {
    var sets := WordSets(x, paths);
    if ws == [] {
      assert Telling(x, paths, ws, i) == {};
    } else {
      var n := |ws| - 1;
      var init, w := ws[..n], ws[n];
      HitsAreTelling(x, paths, init, i);
      HitsSnoc(sets[i], Discriminating(sets, init), w);
      TellsMeans(x, paths, w, i);
      TellingNext(x, paths, ws, i);
      assert Discriminating(sets, ws) == if Common(sets, w) then Discriminating(sets, init)
                                         else Discriminating(sets, init) + [w];
    }
  }

  lemma CommonMeans(x: Paths, paths: seq<string>, w: string)
    ensures Common(WordSets(x, paths), w) <==>
      forall j :: 0 <= j < |paths| && x.isVideo(paths[j]) ==> w in x.baseWords(paths[j])
  {
    var sets := WordSets(x, paths);
    forall j | 0 <= j < |paths| ensures sets[j].Of? <==> x.isVideo(paths[j]) {
    }
  }

  /** File `i` carries telling hint words, none carries more, none that carries as many is larger, and
      none as good comes before it. */
  ghost predicate TellsMost(x: Paths, paths: seq<string>, sizes: seq<int>, ws: seq<string>, i: nat)
    requires |paths| == |sizes| && i < |paths|
  {
    var n := |Telling(x, paths, ws, i)|;
    && n > 0
    && forall j :: 0 <= j < |paths| ==>
         var m := |Telling(x, paths, ws, j)|;
         m <= n && (m == n ==> sizes[j] <= sizes[i] && (sizes[j] == sizes[i] ==> i <= j))
  }

  /** What the choice for a title is: the file that is asked for; else the video that carries the most
      hint words some other video lacks, among those the largest, among those the first; else, when no
      video carries any, the default. */
  lemma ChoiceForTitleMeans(x: Paths, paths: seq<string>, sizes: seq<int>, want: int, ws: seq<string>)
    requires |paths| == |sizes|
    ensures var c := ForTitle(x, paths, sizes, want, ws);
      if 0 <= want < |paths| then c == Chosen(want)
      else if forall i :: 0 <= i < |paths| ==> Telling(x, paths, ws, i) == {} then
        c == Default(x, paths, sizes, want)
      else c.Chosen? && c.idx < |paths| && TellsMost(x, paths, sizes, ws, c.idx)
  {
    var sets := WordSets(x, paths);
    var hits := AllHits(sets, Discriminating(sets, ws));
    forall i | 0 <= i < |paths| ensures hits[i] == |Telling(x, paths, ws, i)| {
      HitsAreTelling(x, paths, ws, i);
    }
    FirstBestMeans(hits, sizes);
    if !(0 <= want < |paths|) {
      ForTitleMeans(x, paths, sizes, want, ws);
      assert NoHits(hits) <==> forall i :: 0 <= i < |paths| ==> Telling(x, paths, ws, i) == {};
    }
  }

  lemma ForTitleMeans(x: Paths, paths: seq<string>, sizes: seq<int>, want: int, ws: seq<string>)
    requires |paths| == |sizes| && !(0 <= want < |paths|)
    ensures var sets := WordSets(x, paths);
      var hits := AllHits(sets, Discriminating(sets, ws));
      var c := ForTitle(x, paths, sizes, want, ws);
      if NoHits(hits) then c == Default(x, paths, sizes, want)
      else c.Chosen? && IsFirstBest(hits, sizes, c.idx) && x.isVideo(paths[c.idx])
  {
    var sets := WordSets(x, paths);
    var hits := AllHits(sets, Discriminating(sets, ws));
    FirstBestMeans(hits, sizes);
    assert FirstBest(hits, sizes) >= 0 ==> sets[FirstBest(hits, sizes)].Of?;
  }

  // ---------- words that do not matter ----------

  lemma {:induction false} HitsCount(set0: Words, ws: seq<string>, vs: seq<string>)
    requires multiset(ws) == multiset(vs)
    ensures Hits(set0, ws) == Hits(set0, vs)
    decreases |ws|
  {
    assert |multiset(ws)| == |multiset(vs)|;
    if ws != [] && set0.Of? {
      var n := |ws| - 1;
      var k := Matching(ws, vs);
      HitsWithout(set0, vs, k);
      HitsCount(set0, ws[..n], vs[..k] + vs[k + 1..]);
    }
  }

  lemma Matching(ws: seq<string>, vs: seq<string>) returns (k: nat)
    requires ws != [] && multiset(ws) == multiset(vs)
    ensures k < |vs| && vs[k] == ws[|ws| - 1]
    ensures multiset(ws[..|ws| - 1]) == multiset(vs[..k] + vs[k + 1..])
  {
    var n := |ws| - 1;
    assert ws[n] in multiset(vs);
    k :| 0 <= k < |vs| && vs[k] == ws[n];
    RemoveOne(ws, n);
    RemoveOne(vs, k);
    assert ws[..n] + ws[n + 1..] == ws[..n];
  }

  lemma RemoveOne(vs: seq<string>, k: nat)
    requires k < |vs|
    ensures multiset(vs[..k] + vs[k + 1..]) == multiset(vs) - multiset{vs[k]}
  {
    assert vs == vs[..k] + [vs[k]] + vs[k + 1..];
  }

  lemma {:induction false} HitsConcat(set0: Words, a: seq<string>, b: seq<string>)
    ensures Hits(set0, a + b) == Hits(set0, a) + Hits(set0, b)
  {
    if b == [] {
      assert a + b == a;
    } else {
      HitsConcat(set0, a, b[..|b| - 1]);
      assert (a + b)[..|a + b| - 1] == a + b[..|b| - 1];
    }
  }

  lemma HitsWithout(set0: Words, vs: seq<string>, k: nat)
    requires k < |vs| && set0.Of?
    ensures Hits(set0, vs) == Hits(set0, vs[..k] + vs[k + 1..]) + if vs[k] in set0.words then 1 else 0
  {
    assert vs == vs[..k + 1] + vs[k + 1..];
    HitsConcat(set0, vs[..k + 1], vs[k + 1..]);
    assert vs[..k + 1][..k] == vs[..k];
    HitsConcat(set0, vs[..k], vs[k + 1..]);
  }

  lemma {:induction false} DiscriminatingConcat(sets: seq<Words>, a: seq<string>, b: seq<string>)
    ensures Discriminating(sets, a + b) == Discriminating(sets, a) + Discriminating(sets, b)
  {
    if b == [] {
      assert a + b == a;
    } else {
      DiscriminatingConcat(sets, a, b[..|b| - 1]);
      assert (a + b)[..|a + b| - 1] == a + b[..|b| - 1];
    }
  }

  lemma {:induction false} CommonWordsDrop(sets: seq<Words>, ws: seq<string>)
    requires forall w :: w in ws ==> Common(sets, w)
    ensures Discriminating(sets, ws) == []
  {
    if ws != [] {
      CommonWordsDrop(sets, ws[..|ws| - 1]);
    }
  }

  lemma SameDiscriminatingSameChoice(x: Paths, paths: seq<string>, sizes: seq<int>, want: int,
                                     ws: seq<string>, vs: seq<string>)
    requires |paths| == |sizes|
    requires var sets := WordSets(x, paths);
      multiset(Discriminating(sets, ws)) == multiset(Discriminating(sets, vs))
    ensures ForTitle(x, paths, sizes, want, ws) == ForTitle(x, paths, sizes, want, vs)
  {
    var sets := WordSets(x, paths);
    var a, b := Discriminating(sets, ws), Discriminating(sets, vs);
    forall i | 0 <= i < |sets| ensures Hits(sets[i], a) == Hits(sets[i], b) {
      HitsCount(sets[i], a, b);
    }
    assert AllHits(sets, a) == AllHits(sets, b);
  }

  /** Hint words that every video carries, the franchise line, change nothing wherever they are
      put, not even when they are all there is. */
  lemma CommonWordsCancel(x: Paths, paths: seq<string>, sizes: seq<int>, want: int,
                          a: seq<string>, common: seq<string>, b: seq<string>)
    requires |paths| == |sizes|
    requires forall w :: w in common ==> Common(WordSets(x, paths), w)
    ensures ForTitle(x, paths, sizes, want, a + common + b) == ForTitle(x, paths, sizes, want, a + b)
  {
    var sets := WordSets(x, paths);
    DiscriminatingConcat(sets, a + common, b);
    DiscriminatingConcat(sets, a, common);
    DiscriminatingConcat(sets, a, b);
    CommonWordsDrop(sets, common);
    SameDiscriminatingSameChoice(x, paths, sizes, want, a + common + b, a + b);
  }

  lemma {:induction false} DiscriminatingCounts(sets: seq<Words>, ws: seq<string>, w: string)
    ensures multiset(Discriminating(sets, ws))[w] == if Common(sets, w) then 0 else multiset(ws)[w]
  {
    if ws != [] {
      var n := |ws| - 1;
      var d := Discriminating(sets, ws[..n]);
      DiscriminatingCounts(sets, ws[..n], w);
      assert ws == ws[..n] + [ws[n]];
      if Common(sets, ws[n]) {
        assert Discriminating(sets, ws) == d;
      } else {
        assert Discriminating(sets, ws) == d + [ws[n]];
      }
    }
  }

  /** The order of the hints makes no difference. */
  lemma HintOrderIsIrrelevant(x: Paths, paths: seq<string>, sizes: seq<int>, want: int,
                              ws: seq<string>, vs: seq<string>)
    requires |paths| == |sizes| && multiset(ws) == multiset(vs)
    ensures ForTitle(x, paths, sizes, want, ws) == ForTitle(x, paths, sizes, want, vs)
  {
    var sets := WordSets(x, paths);
    forall w ensures multiset(Discriminating(sets, ws))[w] == multiset(Discriminating(sets, vs))[w] {
      DiscriminatingCounts(sets, ws, w);
      DiscriminatingCounts(sets, vs, w);
    }
    SameDiscriminatingSameChoice(x, paths, sizes, want, ws, vs);
  }

  /** A repeated word adds a hit to every file that carries it, unless it tells nothing apart. */
  lemma RepeatAddsHits(sets: seq<Words>, ws: seq<string>, v: string)
    ensures var h, g := AllHits(sets, Discriminating(sets, ws)), AllHits(sets, Discriminating(sets, ws + [v]));
      forall j :: 0 <= j < |sets| ==> g[j] == h[j] + if !Common(sets, v) && Carries(sets[j], v) then 1 else 0
  {
    assert (ws + [v])[..|ws|] == ws;
    var d := Discriminating(sets, ws);
    forall j | 0 <= j < |sets|
      ensures Hits(sets[j], Discriminating(sets, ws + [v]))
           == Hits(sets[j], d) + if !Common(sets, v) && Carries(sets[j], v) then 1 else 0
    {
      HitsSnoc(sets[j], d, v);
      assert Discriminating(sets, ws + [v]) == if Common(sets, v) then d else d + [v];
    }
  }

  predicate Carries(set0: Words, w: string) {
    set0.Of? && w in set0.words
  }

  lemma HitsSnoc(set0: Words, d: seq<string>, w: string)
    ensures Hits(set0, d + [w]) == Hits(set0, d) + if Carries(set0, w) then 1 else 0
  {
    assert (d + [w])[..|d|] == d;
  }

  /** File `j`, with so many hits, is preferred to file `b` with its own. */
  predicate Overtakes(hits: seq<nat>, sizes: seq<int>, j: nat, hitsOfJ: nat, b: nat)
    requires |hits| == |sizes| && j < |hits| && b < |hits|
  {
    || hitsOfJ > hits[b]
    || (hitsOfJ == hits[b] && (sizes[j] > sizes[b] || (sizes[j] == sizes[b] && j < b)))
  }

  /** No file that carries the word comes past the best one with one more hit. */
  ghost predicate StaysAhead(sets: seq<Words>, hits: seq<nat>, sizes: seq<int>, v: string, b: nat)
    requires |sets| == |hits| == |sizes| && b < |hits|
  {
    forall j :: 0 <= j < |sets| && Carries(sets[j], v) ==> !Overtakes(hits, sizes, j, hits[j] + 1, b)
  }

  lemma OneFirstBest(hits: seq<nat>, sizes: seq<int>, i: nat)
    requires |hits| == |sizes| && IsFirstBest(hits, sizes, i)
    ensures FirstBest(hits, sizes) == i
  {
    FirstBestMeans(hits, sizes);
    assert hits[i] > 0;
    var b := FirstBest(hits, sizes);
    assert hits[b] == hits[i] && sizes[b] == sizes[i];
  }

  lemma RepeatKeepsBestIff(sets: seq<Words>, hits: seq<nat>, more: seq<nat>, sizes: seq<int>, v: string)
    requires |sets| == |hits| == |more| == |sizes| && FirstBest(hits, sizes) >= 0
    requires forall j :: 0 <= j < |sets| ==> more[j] == hits[j] + if Carries(sets[j], v) then 1 else 0
    ensures var b := FirstBest(hits, sizes);
      FirstBest(more, sizes) == b <==> Carries(sets[b], v) || StaysAhead(sets, hits, sizes, v, b)
  {
    var b := FirstBest(hits, sizes);
    FirstBestMeans(hits, sizes);
    FirstBestMeans(more, sizes);
    assert more[b] > 0;
    if Carries(sets[b], v) || StaysAhead(sets, hits, sizes, v, b) {
      assert IsFirstBest(more, sizes, b);
      OneFirstBest(more, sizes, b);
    } else {
      var j :| 0 <= j < |sets| && Carries(sets[j], v) && Overtakes(hits, sizes, j, hits[j] + 1, b);
      assert !IsFirstBest(more, sizes, b);
    }
  }

  /** Asking for a word once more keeps the choice exactly when the word tells nothing apart, no
      video had a hit, the chosen video carries it, or no video that carries it gets past the chosen
      one with one more hit. */
  lemma RepeatKeepsChoiceIff(x: Paths, paths: seq<string>, sizes: seq<int>, want: int, ws: seq<string>, v: string)
    requires |paths| == |sizes| && !(0 <= want < |paths|) && v in ws
    ensures var sets := WordSets(x, paths);
      var hits := AllHits(sets, Discriminating(sets, ws));
      var b := FirstBest(hits, sizes);
      ForTitle(x, paths, sizes, want, ws + [v]) == ForTitle(x, paths, sizes, want, ws)
      <==> Common(sets, v) || b < 0 || Carries(sets[b], v) || StaysAhead(sets, hits, sizes, v, b)
  {
    var sets := WordSets(x, paths);
    var hits, more := AllHits(sets, Discriminating(sets, ws)), AllHits(sets, Discriminating(sets, ws + [v]));
    RepeatAddsHits(sets, ws, v);
    FirstBestMeans(hits, sizes);
    FirstBestMeans(more, sizes);
    if Common(sets, v) {
      assert more == hits;
    } else if FirstBest(hits, sizes) < 0 {
      forall j | 0 <= j < |sets| ensures more[j] == hits[j] {
        CarriedWordHits(sets, ws, v, j);
      }
      assert more == hits;
    } else {
      RepeatKeepsBestIff(sets, hits, more, sizes, v);
    }
  }

  /** A word that tells files apart is a hit for every file that carries it. */
  lemma {:induction false} CarriedWordHits(sets: seq<Words>, ws: seq<string>, v: string, j: nat)
    requires j < |sets| && v in ws && !Common(sets, v)
    ensures Carries(sets[j], v) ==> Hits(sets[j], Discriminating(sets, ws)) > 0
  {
    var n := |ws| - 1;
    var d := Discriminating(sets, ws[..n]);
    HitsSnoc(sets[j], d, ws[n]);
    assert Discriminating(sets, ws) == if Common(sets, ws[n]) then d else d + [ws[n]];
    if ws[n] != v {
      assert v in ws[..n];
      CarriedWordHits(sets, ws[..n], v, j);
    }
  }

  /** But a repeated hint word counts again: with a name that carries one word and a larger file
      that carries another, asking for the first word twice turns the choice. */
  lemma RepeatedWordsCount(x: Paths, p: string, q: string, v: string, w: string)
    requires v != w && x.isVideo(p) && x.isVideo(q) && x.baseWords(p) == {v} && x.baseWords(q) == {w}
    ensures ForTitle(x, [p, q], [1, 2], -1, [v, w]) == Chosen(1)
    ensures ForTitle(x, [p, q], [1, 2], -1, [v, v, w]) == Chosen(0)
  {
    var sets := WordSets(x, [p, q]);
    assert sets == [Of({v}), Of({w})];
    TwoWords(sets, v, w);
    AllDiscriminate(sets, [v, w]);
    AllDiscriminate(sets, [v, v, w]);
    FirstBestMeans([1, 1], [1, 2]);
    FirstBestMeans([2, 1], [1, 2]);
  }

  lemma TwoWords(sets: seq<Words>, v: string, w: string)
    requires v != w && sets == [Of({v}), Of({w})]
    ensures !Common(sets, v) && !Common(sets, w)
    ensures AllHits(sets, [v, w]) == [1, 1] && AllHits(sets, [v, v, w]) == [2, 1]
  {
    assert v !in sets[1].words && w !in sets[0].words;
    forall i | 0 <= i < 2
      ensures Hits(sets[i], [v, w]) == 1 && Hits(sets[i], [v, v, w]) == if i == 0 then 2 else 1
    {
      assert [v, v, w][..2] == [v, v] && [v, v][..1] == [v] && [v, w][..1] == [v] && [v][..0] == [];
      assert Hits(sets[i], [v]) == if i == 0 then 1 else 0;
      assert Hits(sets[i], [v, v]) == if i == 0 then 2 else 0;
    }
  }

  lemma {:induction false} AllDiscriminate(sets: seq<Words>, ws: seq<string>)
    requires forall w :: w in ws ==> !Common(sets, w)
    ensures Discriminating(sets, ws) == ws
  {
    if ws != [] {
      AllDiscriminate(sets, ws[..|ws| - 1]);
      assert ws == ws[..|ws| - 1] + [ws[|ws| - 1]];
    }
  }
}
