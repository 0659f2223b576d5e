/** What the gate of relevance.go comes to, read off the name and the request alone: when two spellings
    match, when a season, a year or a second title speaks against a release, and which releases are
    kept. */
module RelevanceGates {
  import opened Basics
  import opened SearchMerge
  import opened Relevance

  // ---------- the words of a name ----------

  /** Normalising works character by character: letters and digits stay, in lower case, in order. */
  lemma FlattenPieces(x: Text, a: string, c: char, b: string)
    ensures Flatten(x, "") == ""
    ensures var l := x.lower(c);
      Flatten(x, a + [c] + b)
      == Flatten(x, a) + (if 'a' <= l <= 'z' || '0' <= l <= '9' then [l] else []) + Flatten(x, b)
  {
    FlattenConcat(x, a + [c], b);
    assert (a + [c])[..|a|] == a;
  }

  function Joined(ws: seq<string>): string {
    if ws == [] then "" else Joined(ws[..|ws| - 1]) + ws[|ws| - 1]
  }

  /** A run of letters and digits, already in lower case. */
  predicate IsRun(w: string) {
    w != "" && forall i :: 0 <= i < |w| ==> 'a' <= w[i] <= 'z' || '0' <= w[i] <= '9'
  }

  lemma JoinedSnoc(ws: seq<string>, w: string)
    ensures Joined(ws + [w]) == Joined(ws) + w
  {
    assert (ws + [w])[..|ws|] == ws;
  }

  lemma JoinedGrown(ws: seq<string>, c: char)
    requires ws != []
    ensures var n := |ws| - 1; Joined(ws[..n] + [ws[n] + [c]]) == Joined(ws) + [c]
  {
    var n := |ws| - 1;
    JoinedSnoc(ws[..n], ws[n] + [c]);
    assert Joined(ws[..n]) + (ws[n] + [c]) == (Joined(ws[..n]) + ws[n]) + [c];
  }

  ghost predicate AllRuns(ws: seq<string>) {
    forall i :: 0 <= i < |ws| ==> IsRun(ws[i])
  }

  lemma RunGrows(w: string, c: char)
    requires (w == "" || IsRun(w)) && IsWordChar(c)
    ensures IsRun(w + [c])
  {
  }

  /** The words of a name are runs of letters and digits, and together they spell the normalised name. */
  lemma {:induction false} WordsSpellTheName(x: Text, s: string)
    ensures Joined(Tokens(x, s)) == Flatten(x, s)
    ensures AllRuns(Tokens(x, s))
  {
    if s != "" {
      var init, c := s[..|s| - 1], x.lower(s[|s| - 1]);
      WordsSpellTheName(x, init);
      if IsWordChar(c) {
        WordsGrow(Tokens(x, init), c);
      }
    }
  }

  lemma WordsGrow(ws: seq<string>, c: char)
    requires AllRuns(ws) && IsWordChar(c)
    ensures Joined(ws + [[c]]) == Joined(ws) + [c] && AllRuns(ws + [[c]])
    ensures ws != [] ==>
      var n := |ws| - 1; Joined(ws[..n] + [ws[n] + [c]]) == Joined(ws) + [c] && AllRuns(ws[..n] + [ws[n] + [c]])
  {
    JoinedSnoc(ws, [c]);
    RunGrows("", c);
    assert "" + [c] == [c];
    RunAdds(ws, [c]);
    if ws != [] {
      var n := |ws| - 1;
      JoinedGrown(ws, c);
      RunGrows(ws[n], c);
      RunAdds(ws[..n], ws[n] + [c]);
    }
  }

  lemma RunAdds(ws: seq<string>, w: string)
    requires AllRuns(ws) && IsRun(w)
    ensures AllRuns(ws + [w])
  {
  }

  /** A name without any separator is one word. Names with separators split there, as `TokensConcat`
      says. */
  lemma {:induction false} OneWord(x: Text, s: string)
    requires s != "" && forall i :: 0 <= i < |s| ==> IsRun([x.lower(s[i])])
    ensures |Tokens(x, s)| == 1
  {
    var n := |s| - 1;
    assert forall i :: 0 <= i < |s| ==> [x.lower(s[i])][0] == x.lower(s[i]);
    if n > 0 {
      OneWord(x, s[..n]);
    }
  }

  // ---------- matching a title ----------

  /** One string stands somewhere in another. */
  predicate PartOf(needle: string, hay: string) {
    exists i :: 0 <= i <= |hay| - |needle| && hay[i..][..|needle|] == needle
  }

  lemma ContainsIsPartOf(hay: string, needle: string)
    ensures Contains(hay, needle) <==> PartOf(needle, hay)
  {
    if i :| 0 <= i <= |hay| && OccursAt(hay, needle, i) {
      assert hay[i..][..|needle|] == hay[i..i + |needle|];
    }
    if i :| 0 <= i <= |hay| - |needle| && hay[i..][..|needle|] == needle {
      assert hay[i..][..|needle|] == hay[i..i + |needle|];
      assert OccursAt(hay, needle, i);
    }
  }

  predicate Tells(w: string) {
    |w| > 2 && w != "the" && w != "and" && w != "of"
  }

  /** The `k`-th word of the list is its first telling one. */
  ghost predicate TellsFirst(ws: seq<string>, k: int) {
    0 <= k < |ws| && Tells(ws[k]) && forall j :: 0 <= j < k ==> !Tells(ws[j])
  }

  lemma TellingWords(ws: seq<string>)
    ensures var f := Filter((w: string) => |w| >= 3 && w !in ["the", "and", "of"], ws);
      && (forall w :: w in f <==> w in ws && Tells(w))
      && (f != [] ==> exists k :: TellsFirst(ws, k))
      && forall k :: TellsFirst(ws, k) ==> f != [] && f[0] == ws[k]
  {
    var p := (w: string) => |w| >= 3 && w !in ["the", "and", "of"];
    assert forall w :: p(w) <==> Tells(w);
    FilterMembers(p, ws);
    if Filter(p, ws) != [] {
      assert Filter(p, ws)[0] in ws && Tells(Filter(p, ws)[0]);
      FirstTelling(ws);
    }
    forall k | TellsFirst(ws, k) ensures Filter(p, ws) != [] && Filter(p, ws)[0] == ws[k] {
      FirstOfFilter(p, ws, k);
    }
  }

  lemma {:induction false} FirstOfFilter(p: string -> bool, ws: seq<string>, k: nat)
    requires k < |ws| && p(ws[k]) && forall j :: 0 <= j < k ==> !p(ws[j])
    ensures Filter(p, ws) != [] && Filter(p, ws)[0] == ws[k]
  {
    var n := |ws| - 1;
    if k < n {
      FirstOfFilter(p, ws[..n], k);
    } else {
      FilterMembers(p, ws[..n]);
      assert Filter(p, ws[..n]) != [] ==> Filter(p, ws[..n])[0] in ws[..n];
    }
  }

  /** When a spelling of a name matches a spelling of a title: the normalised title stands in the
      normalised name, or has nothing telling in it; or every telling word of it does, and the first
      telling word of the name is the title's. */
  ghost predicate SpelledIn(x: Text, name: string, title: string) {
    var have := Flatten(x, name);
    || PartOf(Flatten(x, title), have)
    || (forall w :: w in Tokens(x, title) ==> !Tells(w))
    || (&& (forall w :: w in Tokens(x, title) && Tells(w) ==> PartOf(w, have))
        && exists i, k :: TellsFirst(Tokens(x, name), i) && TellsFirst(Tokens(x, title), k)
                       && Tokens(x, name)[i] == Tokens(x, title)[k])
  }

  lemma {:induction false} FirstTelling(ws: seq<string>)
    ensures (exists k :: 0 <= k < |ws| && Tells(ws[k])) ==> exists k :: TellsFirst(ws, k)
  {
    if ws != [] {
      var n := |ws| - 1;
      FirstTelling(ws[..n]);
      if k :| TellsFirst(ws[..n], k) {
        assert TellsFirst(ws, k);
      } else if Tells(ws[n]) {
        assert forall j :: 0 <= j < n ==> ws[..n][j] == ws[j];
        assert TellsFirst(ws, n);
      }
    }
  }

  /** A title matches exactly when its spelling does, as it is or with both in plain romanisation. */
  lemma TitleMatchesIff(x: Text, name: string, title: string)
    ensures TitleMatches(x, name, title) <==>
      SpelledIn(x, name, title) || SpelledIn(x, x.romaji(name), x.romaji(title))
  {
    MatchIsSpelling(x, name, title);
    MatchIsSpelling(x, x.romaji(name), x.romaji(title));
  }

  lemma MatchIsSpelling(x: Text, name: string, title: string)
    ensures MatchNormalized(x, name, title) <==> SpelledIn(x, name, title)
  {
    var have, a, b := Flatten(x, name), Tokens(x, name), Tokens(x, title);
    TellingWords(a);
    TellingWords(b);
    forall w ensures Contains(have, w) <==> PartOf(w, have) {
      ContainsIsPartOf(have, w);
    }
    assert have[0..][..0] == "";
    assert have == have[0..];
    assert SignificantWords(x, title) == [] <==> forall w :: w in b ==> !Tells(w);
  }

  /** So "Pacific Rim Uprising" does not stand in for "The Uprising". */
  lemma AnotherWorkIsRefused(x: Text, name: string, title: string)
    requires Tokens(x, name) == ["pacific", "rim", "uprising"] && Tokens(x, title) == ["the", "uprising"]
    ensures !MatchNormalized(x, name, title)
  {
    MatchIsSpelling(x, name, title);
    WordsSpellTheName(x, name);
    WordsSpellTheName(x, title);
    JoinedSnoc(["the"], "uprising");
    JoinedSnoc([], "the");
    JoinedSnoc(["pacific", "rim"], "uprising");
    JoinedSnoc(["pacific"], "rim");
    JoinedSnoc([], "pacific");
    var a, b := ["pacific", "rim", "uprising"], ["the", "uprising"];
    assert b[1] in b && Tells(b[1]);
    forall i | TellsFirst(a, i) ensures i == 0 {
      assert Tells(a[0]);
    }
    forall k | TellsFirst(b, k) ensures k == 1 {
      assert !Tells(b[0]) && Tells(b[1]);
    }
    NotInside();
  }

  lemma NotInside()
    ensures !PartOf("" + "the" + "uprising", "" + "pacific" + "rim" + "uprising")
  {
    var have, want := "pacificrimuprising", "theuprising";
    assert "" + "the" + "uprising" == want && "" + "pacific" + "rim" + "uprising" == have;
    forall i | 0 <= i <= |have| - |want| ensures have[i..][..|want|] != want {
      assert have[i..][..|want|][0] == have[i] && want[0] == 't';
    }
  }

  // ---------- the season, the year, the second title ----------

  /** Which names pass for season `n`: a range that holds it, or starts at zero; without a range, a name
      whose first positive capture is `n`, or that has none. */
  ghost predicate OfSeason(x: Text, name: string, n: int) {
    match x.seasonRange(name)
    case Some(r) => r.0 <= n <= r.1 || r.1 <= n <= r.0 || r.0 == 0 || r.1 == 0
    case None => forall i {:trigger CapturesFirst(x.seasons, name, i)} ::
      CapturesFirst(x.seasons, name, i) ==> x.seasons[i](name).value == n
  }

  /** What ties a name to season `n`: an episode marker, a range that holds it, or, without a range, `n`
      as its first positive capture. */
  ghost predicate TiedTo(x: Text, name: string, n: int) {
    || x.episode(name)
    || match x.seasonRange(name)
       case Some(r) => r.0 <= n <= r.1 || r.1 <= n <= r.0
       case None => exists i :: CapturesFirst(x.seasons, name, i) && x.seasons[i](name).value == n
  }

  lemma SeasonGateMeans(x: Text, name: string, n: int)
    requires n > 0
    ensures SeasonFits(x, name, n) <==> OfSeason(x, name, n)
    ensures OfSeason(x, name, n) ==> (IdentifiedForSeason(x, name, n) <==> TiedTo(x, name, n))
  {
    FirstSeasonIsFirst(x.seasons, name);
  }

  /** The year is not asked for, not stated, or some stated year is within `slack` of it. */
  ghost predicate YearIsNear(years: seq<nat>, year: int, slack: int) {
    year <= 0 || years == [] || exists i :: 0 <= i < |years| && year - slack <= years[i] <= year + slack
  }

  lemma YearGateMeans(years: seq<nat>, year: int, slack: int)
    ensures YearAgrees(years, year, slack) <==> YearIsNear(years, year, slack)
  {
    if y :| y in years && Near(y, year, slack) {
      var i :| 0 <= i < |years| && years[i] == y;
      assert year - slack <= years[i] <= year + slack;
    }
    if i :| 0 <= i < |years| && year - slack <= years[i] <= year + slack {
      assert years[i] in years && Near(years[i], year, slack);
    }
  }

  predicate Hints(w: string) {
    |w| > 1 && w != "the" && w != "and" && w != "of" && w != "to" && w != "in" && w != "a" && w != "an"
  }

  /** A word of the name, brackets, extension and group taken off, that is in no title in either
      spelling, and neither release furniture nor numbered. */
  ghost predicate Foreign(x: Text, name: string, titles: seq<string>, w: string) {
    && w in Tokens(x, x.bare(name)) && Hints(w) && w !in x.furniture
    && (forall i :: 0 <= i < |w| ==> !('0' <= w[i] <= '9'))
    && forall t, v :: t in titles && v in Tokens(x, t) && Hints(v) ==>
         w != v && w != x.romaji(v) && x.romaji(w) != v && x.romaji(w) != x.romaji(v)
  }

  lemma HintWordsMean(x: Text, s: string)
    ensures forall w :: w in HintWords(x, s) <==> w in Tokens(x, s) && Hints(w)
  {
    FilterMembers((w: string) => |w| >= 2 && w !in ["the", "and", "of", "to", "in", "a", "an"], Tokens(x, s));
  }

  lemma ForeignIsExtra(x: Text, name: string, titles: seq<string>, w: string)
    ensures IsExtra(x, HintWords(x, x.bare(name)), titles, w) <==> Foreign(x, name, titles, w)
  {
    HintWordsMean(x, x.bare(name));
    forall t ensures forall v :: v in HintWords(x, t) <==> v in Tokens(x, t) && Hints(v) {
      HintWordsMean(x, t);
    }
    if !IsOwn(x, titles, w) && !IsOwn(x, titles, x.romaji(w)) {
      forall t, v | t in titles && v in Tokens(x, t) && Hints(v)
        ensures w != v && w != x.romaji(v) && x.romaji(w) != v && x.romaji(w) != x.romaji(v)
      {
        assert v in HintWords(x, t) && !Names(x, HintWords(x, t), w) && !Names(x, HintWords(x, t), x.romaji(w));
      }
    }
  }

  /** The distinct foreign words are what is counted. */
  lemma ForeignWordsAreCounted(x: Text, name: string, titles: seq<string>, foreign: set<string>)
    requires forall w :: w in foreign <==> Foreign(x, name, titles, w)
    ensures ExtraCount(x, name, titles) == |foreign|
  {
    forall w ensures w in Extras(x, HintWords(x, x.bare(name)), titles) <==> w in foreign {
      ForeignIsExtra(x, name, titles, w);
    }
    assert Extras(x, HintWords(x, x.bare(name)), titles) == foreign;
  }

  /** Some marker matches at `cut`, and none further left. */
  ghost predicate FirstCut(x: Text, name: string, cut: int) {
    && 0 <= cut < |name|
    && (exists i :: 0 <= i < |x.markers| && x.markers[i](name).Some? && x.markers[i](name).value == cut)
    && forall i :: 0 <= i < |x.markers| && x.markers[i](name).Some? ==> cut <= x.markers[i](name).value
  }

  /** Ahead of the first marker the words of that part are counted, and nothing without one. */
  lemma ForeignBeforeMarker(x: Text, name: string, titles: seq<string>)
    ensures forall cut :: FirstCut(x, name, cut) ==>
      ExtraCountBeforeMarker(x, name, titles) == ExtraCount(x, name[..cut], titles)
    ensures (forall cut :: !FirstCut(x, name, cut)) ==> ExtraCountBeforeMarker(x, name, titles) == 0
  {
    FirstMarkerIsFirst(x.markers, name);
    var cut := FirstMarker(x.markers, name);
    if cut < |name| {
      assert FirstCut(x, name, cut);
    }
  }

  // ---------- what is kept ----------

  ghost predicate MatchesSome(x: Text, q: Query, name: string) {
    TitleMatches(x, name, q.title) || exists i :: 0 <= i < |q.aliases| && TitleMatches(x, name, q.aliases[i])
  }

  lemma SomeTitleMatches(x: Text, q: Query, name: string)
    ensures MatchesSome(x, q, name) <==> exists t :: t in Titles(q) && TitleMatches(x, name, t)
  {
    if t :| t in Titles(q) && TitleMatches(x, name, t) {
      var i :| 0 <= i < |Titles(q)| && Titles(q)[i] == t;
      assert i > 0 ==> q.aliases[i - 1] == t;
    }
    if i :| 0 <= i < |q.aliases| && TitleMatches(x, name, q.aliases[i]) {
      assert Titles(q)[i + 1] == q.aliases[i] && q.aliases[i] in Titles(q);
    }
    assert Titles(q)[0] == q.title && q.title in Titles(q);
  }

  /** A release is kept for a film exactly when it is no sample or extra, matches some title, shows no
      episode marker, and its year is near: within one, or three when there are aliases. */
  lemma KeptForFilmIff(x: Text, q: Query, name: string)
    requires q.typ == "movie"
    ensures Relevant(x, q, name) <==>
      && !x.nonFeature(name) && MatchesSome(x, q, name) && !x.episode(name)
      && YearIsNear(x.years(name), q.year, if q.aliases == [] then 1 else 3)
  {
    SomeTitleMatches(x, q, name);
    YearGateMeans(x.years(name), q.year, if q.aliases == [] then 1 else 3);
  }

  /** For a season exactly when it is no sample or extra, matches some title, is no film, is of that
      season, has at most one foreign word ahead of its numbering, and is tied to the season or has a
      year near enough, three more for each season after the first, and at most one foreign word. */
  lemma KeptForSeasonIff(x: Text, q: Query, name: string)
    requires q.typ != "movie" && q.season > 0
    ensures var titles := [q.title] + q.aliases;
      Relevant(x, q, name) <==>
        && !x.nonFeature(name) && MatchesSome(x, q, name) && !x.movie(name)
        && OfSeason(x, name, q.season)
        && ExtraCountBeforeMarker(x, name, titles) <= 1
        && (TiedTo(x, name, q.season)
            || (&& YearIsNear(x.years(name), q.year, (if q.aliases == [] then 1 else 3) + 3 * q.season - 3)
                && ExtraCount(x, name, titles) <= 1))
  {
    SomeTitleMatches(x, q, name);
    SeasonGateMeans(x, name, q.season);
    YearGateMeans(x.years(name), q.year, (if q.aliases == [] then 1 else 3) + 3 * q.season - 3);
  }

  /** Without a season, whatever matches is kept. */
  lemma KeptWithoutSeasonIff(x: Text, q: Query, name: string)
    requires q.typ != "movie" && q.season <= 0
    ensures Relevant(x, q, name) <==> !x.nonFeature(name) && MatchesSome(x, q, name)
  {
    SomeTitleMatches(x, q, name);
  }

  /** "4th Season - 04" is not kept for season one. */
  lemma FourthSeasonIsDropped(x: Text, q: Query, name: string, i: int)
    requires q.typ == "series" && q.season == 1 && x.seasonRange(name).None?
    requires CapturesFirst(x.seasons, name, i) && x.seasons[i](name) == Some(4)
    ensures !Relevant(x, q, name)
  {
    KeptForSeasonIff(x, q, name);
  }
}
