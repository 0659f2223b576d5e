/** The gate that keeps unrelated releases out of the results (relevance.go). */
module Relevance {
  import opened Basics
  import opened SearchMerge

  // ---------- reading a release name ----------

  /** The patterns and text functions of the gate. Names are lower-cased character by character.
      A season pattern yields the number it captured, a marker pattern the position of its first
      match. */
  datatype Text = Text(
    nonFeature: string -> bool,
    episode: string -> bool,
    movie: string -> bool,
    lower: char -> char,
    romaji: string -> string,
    bare: string -> string,
    furniture: set<string>,
    years: string -> seq<nat>,
    seasonRange: string -> Option<(nat, nat)>,
    seasons: seq<string -> Option<nat>>,
    markers: seq<string -> Option<nat>>)

  predicate OccursAt(hay: string, needle: string, i: int) {
    0 <= i <= |hay| - |needle| && hay[i..i + |needle|] == needle
  }

  predicate Contains(hay: string, needle: string) {
    exists i :: 0 <= i <= |hay| && OccursAt(hay, needle, i)
  }

  predicate IsWordChar(c: char) {
    'a' <= c <= 'z' || '0' <= c <= '9'
  }

  /** Lower-case letters and digits only. */
  function Flatten(x: Text, s: string): string {
    if s == "" then ""
    else
      var c := x.lower(s[|s| - 1]);
      Flatten(x, s[..|s| - 1]) + (if IsWordChar(c) then [c] else "")
  }

  /** The pieces between the other characters. The source's split also yields empty pieces; whoever
      asks for the words of a name drops those. */
  function Tokens(x: Text, s: string): (ws: seq<string>)
    ensures s != "" && IsWordChar(x.lower(s[|s| - 1])) ==> ws != []
  {
    if s == "" then []
    else
      var init, c := s[..|s| - 1], x.lower(s[|s| - 1]);
      var ws := Tokens(x, init);
      if !IsWordChar(c) then ws
      else if init != "" && IsWordChar(x.lower(init[|init| - 1])) then ws[..|ws| - 1] + [ws[|ws| - 1] + [c]]
      else ws + [[c]]
  }

  /** The words of a title that distinguish it. */
  function SignificantWords(x: Text, title: string): seq<string> {
    Filter((w: string) => |w| >= 3 && w !in ["the", "and", "of"], Tokens(x, title))
  }

  /** The words a release name would use for a title. */
  function HintWords(x: Text, title: string): seq<string> {
    Filter((w: string) => |w| >= 2 && w !in ["the", "and", "of", "to", "in", "a", "an"], Tokens(x, title))
  }

  predicate MatchNormalized(x: Text, name: string, title: string) {
    var want, have := Flatten(x, title), Flatten(x, name);
    var words, first := SignificantWords(x, title), SignificantWords(x, name);
    || want == ""
    || Contains(have, want)
    || words == []
    || ((forall w :: w in words ==> Contains(have, w)) && first != [] && first[0] == words[0])
  }

  predicate TitleMatches(x: Text, name: string, title: string) {
    MatchNormalized(x, name, title) || MatchNormalized(x, x.romaji(name), x.romaji(title))
  }

  /** A tail that opens with a space, a dot, a bracket or the like. */
  predicate SetOff(x: Text, tail: string) {
    tail != "" && !IsWordChar(x.lower(tail[0]))
  }

  lemma ContainsMore(hay: string, more: string, needle: string)
    requires Contains(hay, needle)
    ensures Contains(hay + more, needle)
  {
    var i :| 0 <= i <= |hay| && OccursAt(hay, needle, i);
    assert (hay + more)[i..i + |needle|] == hay[i..i + |needle|];
    assert OccursAt(hay + more, needle, i);
  }

  lemma {:induction false} FlattenConcat(x: Text, a: string, b: string)
    ensures Flatten(x, a + b) == Flatten(x, a) + Flatten(x, b)
  {
    if b == "" {
      assert a + b == a;
    } else {
      FlattenConcat(x, a, b[..|b| - 1]);
      assert (a + b)[..|a + b| - 1] == a + b[..|b| - 1];
    }
  }

  /** A tail that is set off adds its words and leaves the words before it alone. */
  lemma {:induction false} TokensConcat(x: Text, a: string, b: string)
    requires SetOff(x, b)
    ensures Tokens(x, a + b) == Tokens(x, a) + Tokens(x, b)
  {
    var n := |b| - 1;
    assert (a + b)[..|a + b| - 1] == a + b[..n];
    if n == 0 {
      assert a + b[..n] == a;
    } else {
      TokensConcat(x, a, b[..n]);
      if IsWordChar(x.lower(b[n - 1])) {
        LastTokenGrows(Tokens(x, a), Tokens(x, b[..n]), x.lower(b[n]));
      }
    }
  }

  lemma LastTokenGrows(a: seq<string>, b: seq<string>, c: char)
    requires b != []
    ensures var all := a + b;
      all[..|all| - 1] + [all[|all| - 1] + [c]] == a + (b[..|b| - 1] + [b[|b| - 1] + [c]])
  {
  }

  lemma MatchSurvivesTail(x: Text, name: string, tail: string, title: string)
    requires SetOff(x, tail) && MatchNormalized(x, name, title)
    ensures MatchNormalized(x, name + tail, title)
  {
    FlattenConcat(x, name, tail);
    forall w | Contains(Flatten(x, name), w) ensures Contains(Flatten(x, name + tail), w) {
      ContainsMore(Flatten(x, name), Flatten(x, tail), w);
    }
    SignificantConcat(x, name, tail);
  }

  lemma SignificantConcat(x: Text, name: string, tail: string)
    requires SetOff(x, tail)
    ensures SignificantWords(x, name + tail) == SignificantWords(x, name) + SignificantWords(x, tail)
  {
    TokensConcat(x, name, tail);
    FilterConcat((w: string) => |w| >= 3 && w !in ["the", "and", "of"], Tokens(x, name), Tokens(x, tail));
  }

  /** Whatever a group appends to a name, quality, year or its own tag, the name still matches the
      titles it matched before. Respelling must leave the tail set off as well, as it does when the
      tail opens with a character it does not respell. */
  lemma TagsKeepTheMatch(x: Text, name: string, tail: string, title: string)
    requires SetOff(x, tail) && SetOff(x, x.romaji(tail))
    requires x.romaji(name + tail) == x.romaji(name) + x.romaji(tail)
    requires TitleMatches(x, name, title)
    ensures TitleMatches(x, name + tail, title)
  {
    if MatchNormalized(x, name, title) {
      MatchSurvivesTail(x, name, tail, title);
    } else {
      MatchSurvivesTail(x, x.romaji(name), x.romaji(tail), x.romaji(title));
    }
  }

  // ---------- years ----------

  predicate Near(y: nat, year: int, slack: int) {
    -slack <= y - year <= slack
  }

  /** Unknown year, no year in the name, or any year in the name close enough. */
  predicate YearAgrees(years: seq<nat>, year: int, slack: int) {
    year <= 0 || years == [] || exists y :: y in years && Near(y, year, slack)
  }

  method CheckYear(years: seq<nat>, year: int, slack: int) returns (ok: bool)
    ensures ok == YearAgrees(years, year, slack)
  {
    if year <= 0 {
      return true;
    }
    var found := false;
    for i := 0 to |years|
      invariant found <==> i > 0
      invariant forall k :: 0 <= k < i ==> !Near(years[k], year, slack)
    {
      found := true;
      var diff := years[i] - year;
      if diff < 0 {
        diff := -diff;
      }
      if diff <= slack {
        assert Near(years[i], year, slack);
        return true;
      }
    }
    return !found;
  }

  // ---------- seasons ----------

  function Sorted(r: (nat, nat)): (nat, nat) {
    if r.0 > r.1 then (r.1, r.0) else r
  }

  predicate InRange(r: (nat, nat), season: int) {
    Sorted(r).0 <= season <= Sorted(r).1
  }

  /** The first positive number the patterns capture, or 0. */
  function FirstSeason(patterns: seq<string -> Option<nat>>, name: string): nat {
    if patterns == [] then 0
    else
      var m := patterns[0](name);
      if m.Some? && m.value > 0 then m.value else FirstSeason(patterns[1..], name)
  }

  predicate Captures(pattern: string -> Option<nat>, name: string) {
    pattern(name).Some? && pattern(name).value > 0
  }

  /** The pattern at `i` captures a positive number, and none before it does. */
  ghost predicate CapturesFirst(patterns: seq<string -> Option<nat>>, name: string, i: int) {
    && 0 <= i < |patterns| && Captures(patterns[i], name)
    && forall j :: 0 <= j < i ==> !Captures(patterns[j], name)
  }

  lemma CaptureInRest(patterns: seq<string -> Option<nat>>, name: string, i: int)
    requires patterns != [] && !Captures(patterns[0], name)
    ensures CapturesFirst(patterns, name, i) <==> CapturesFirst(patterns[1..], name, i - 1)
  {
    var rest := patterns[1..];
    assert forall j :: 0 < j < |patterns| ==> patterns[j] == rest[j - 1];
    if CapturesFirst(rest, name, i - 1) {
      forall j | 0 < j < i ensures !Captures(patterns[j], name) {
        assert !Captures(rest[j - 1], name);
      }
    }
  }

  /** The season is what the first pattern with a positive capture captures, and 0 exactly when there is
      no such pattern. */
  lemma {:induction false} FirstSeasonIsFirst(patterns: seq<string -> Option<nat>>, name: string)
    ensures forall i :: CapturesFirst(patterns, name, i) ==> patterns[i](name).value == FirstSeason(patterns, name)
    ensures FirstSeason(patterns, name) == 0 <==> forall i :: !CapturesFirst(patterns, name, i)
    ensures FirstSeason(patterns, name) == 0 <==> forall i :: 0 <= i < |patterns| ==> !Captures(patterns[i], name)
  {
    if patterns != [] {
      if Captures(patterns[0], name) {
        assert CapturesFirst(patterns, name, 0);
      } else {
        var rest := patterns[1..];
        FirstSeasonIsFirst(rest, name);
        forall i ensures CapturesFirst(patterns, name, i) <==> CapturesFirst(rest, name, i - 1) {
          CaptureInRest(patterns, name, i);
        }
        assert forall i :: CapturesFirst(rest, name, i) ==> CapturesFirst(patterns, name, i + 1);
        assert forall j :: 0 < j < |patterns| ==> patterns[j] == rest[j - 1];
      }
    }
  }

  /** The season a name states; 0 when it states none, or a range that holds the wanted one. */
  function ReleaseSeason(x: Text, name: string, want: int): nat {
    var m := x.seasonRange(name);
    if m.Some? then
      if want > 0 && InRange(m.value, want) then 0 else Sorted(m.value).0
    else
      FirstSeason(x.seasons, name)
  }

  predicate IdentifiedForSeason(x: Text, name: string, season: int) {
    || x.episode(name)
    || ReleaseSeason(x, name, season) != 0
    || (x.seasonRange(name).Some? && InRange(x.seasonRange(name).value, season))
  }

  /** The season gate of `filterRelevant`. */
  predicate SeasonFits(x: Text, name: string, season: int) {
    var s := ReleaseSeason(x, name, season);
    s == 0 || s == season
  }

  /** For a name that states a range of seasons the gate does what it is for, letting exactly the
      ranges that hold the season through, except for a range that starts at season zero: its
      lower end reads as "states no season". */
  lemma RangeGate(x: Text, name: string, season: int)
    requires season > 0 && x.seasonRange(name).Some?
    ensures var r := x.seasonRange(name).value;
      SeasonFits(x, name, season) <==> InRange(r, season) || r.0 == 0 || r.1 == 0
  {
  }

  /** "S00-S03" is let through for season five. */
  lemma RangeFromZeroPasses(x: Text, name: string)
    requires x.seasonRange(name) == Some((0, 3))
    ensures SeasonFits(x, name, 5) && !InRange(x.seasonRange(name).value, 5)
  {
  }

  /** Past the season gate, a name is identified exactly when it carries an episode marker, or
      states the season, alone or in a range. */
  lemma IdentifiedMeans(x: Text, name: string, season: int)
    requires season > 0 && SeasonFits(x, name, season)
    ensures IdentifiedForSeason(x, name, season) <==>
      || x.episode(name)
      || (x.seasonRange(name).Some? && InRange(x.seasonRange(name).value, season))
      || (x.seasonRange(name).None? && FirstSeason(x.seasons, name) == season)
  {
  }

  // ---------- a second title ----------

  predicate Spells(x: Text, v: string, w: string) {
    w == v || w == x.romaji(v)
  }

  ghost predicate Names(x: Text, words: seq<string>, w: string) {
    exists v :: v in words && Spells(x, v, w)
  }

  /** A word of one of the titles, as it is or in its plain romanisation. */
  ghost predicate IsOwn(x: Text, titles: seq<string>, w: string) {
    exists t :: t in titles && Names(x, HintWords(x, t), w)
  }

  predicate HasDigit(w: string) {
    exists i :: 0 <= i < |w| && '0' <= w[i] <= '9'
  }

  /** The words of a name that are neither the show's own nor release furniture. */
  ghost predicate IsExtra(x: Text, words: seq<string>, titles: seq<string>, w: string) {
    && w in words && !IsOwn(x, titles, w) && !IsOwn(x, titles, x.romaji(w))
    && w !in x.furniture && !HasDigit(w)
  }

  ghost function Extras(x: Text, words: seq<string>, titles: seq<string>): (s: set<string>)
    ensures forall w :: w in s <==> IsExtra(x, words, titles, w)
  {
    set w | w in words && IsExtra(x, words, titles, w)
  }

  ghost function ExtraCount(x: Text, name: string, titles: seq<string>): nat {
    |Extras(x, HintWords(x, x.bare(name)), titles)|
  }

  method OwnWords(x: Text, titles: seq<string>) returns (own: set<string>)
    ensures forall w :: w in own <==> IsOwn(x, titles, w)
  {
    own := {};
    for i := 0 to |titles|
      invariant forall w :: w in own <==> IsOwn(x, titles[..i], w)
    {
      own := OwnWordsOf(x, titles, i, own);
    }
    assert titles[..|titles|] == titles;
  }

  lemma NamesNext(x: Text, words: seq<string>, j: nat)
    requires j < |words|
    ensures forall w :: Names(x, words[..j + 1], w) <==> Names(x, words[..j], w) || Spells(x, words[j], w)
  {
    assert words[..j + 1] == words[..j] + [words[j]];
    forall w ensures Names(x, words[..j + 1], w) <==> Names(x, words[..j], w) || Spells(x, words[j], w) {
      if v :| v in words[..j] && Spells(x, v, w) {
        assert v in words[..j + 1];
      }
    }
  }

  lemma IsOwnNext(x: Text, titles: seq<string>, i: nat)
    requires i < |titles|
    ensures forall w :: IsOwn(x, titles[..i + 1], w) <==>
      IsOwn(x, titles[..i], w) || Names(x, HintWords(x, titles[i]), w)
  {
    assert titles[..i + 1] == titles[..i] + [titles[i]];
    forall w
      ensures IsOwn(x, titles[..i + 1], w) <==> IsOwn(x, titles[..i], w) || Names(x, HintWords(x, titles[i]), w)
    {
      if t :| t in titles[..i] && Names(x, HintWords(x, t), w) {
        assert t in titles[..i + 1];
      }
    }
  }

  method OwnWordsOf(x: Text, titles: seq<string>, i: nat, own0: set<string>) returns (own: set<string>)
    requires i < |titles|
    requires forall w :: w in own0 <==> IsOwn(x, titles[..i], w)
    ensures forall w :: w in own <==> IsOwn(x, titles[..i + 1], w)
  {
    var words := HintWords(x, titles[i]);
    own := own0;
    for j := 0 to |words|
      invariant forall w :: w in own <==> w in own0 || Names(x, words[..j], w)
    {
      NamesNext(x, words, j);
      own := own + {words[j]} + {x.romaji(words[j])};
    }
    assert words[..|words|] == words;
    IsOwnNext(x, titles, i);
  }

  method ExtraTitleWords(x: Text, name: string, titles: seq<string>) returns (n: nat)
    ensures n == ExtraCount(x, name, titles)
  {
    var words := HintWords(x, x.bare(name));
    var own := OwnWords(x, titles);
    var extra: set<string> := {};
    for i := 0 to |words|
      invariant extra == Extras(x, words[..i], titles)
    {
      var w := words[i];
      if w in own || x.romaji(w) in own || w in x.furniture || HasDigit(w) {
        continue;
      }
      extra := extra + {w};
    }
    assert words[..|words|] == words;
    return |extra|;
  }

  /** Where a name stops naming the work and starts numbering it: the first match of any marker. */
  function FirstMarker(markers: seq<string -> Option<nat>>, name: string): (cut: nat)
    ensures cut <= |name|
  {
    if markers == [] then |name|
    else
      var cut, m := FirstMarker(markers[..|markers| - 1], name), markers[|markers| - 1](name);
      if m.Some? && m.value < cut then m.value else cut
  }

  lemma {:induction false} FirstMarkerIsFirst(markers: seq<string -> Option<nat>>, name: string)
    ensures var cut := FirstMarker(markers, name);
      && (forall i :: 0 <= i < |markers| && markers[i](name).Some? ==> cut <= markers[i](name).value)
      && (cut < |name| ==> exists i :: 0 <= i < |markers| && markers[i](name) == Some(cut))
  {
    if markers != [] {
      FirstMarkerIsFirst(markers[..|markers| - 1], name);
    }
  }

  ghost function ExtraCountBeforeMarker(x: Text, name: string, titles: seq<string>): nat {
    var cut := FirstMarker(x.markers, name);
    if cut == |name| then 0 else ExtraCount(x, name[..cut], titles)
  }

  method ExtraTitleWordsBeforeMarker(x: Text, name: string, titles: seq<string>) returns (n: nat)
    ensures n == ExtraCountBeforeMarker(x, name, titles)
  {
    var cut := |name|;
    for i := 0 to |x.markers|
      invariant cut == FirstMarker(x.markers[..i], name)
    {
      assert x.markers[..i + 1][..i] == x.markers[..i];
      var loc := x.markers[i](name);
      if loc.Some? && loc.value < cut {
        cut := loc.value;
      }
    }
    assert x.markers[..|x.markers|] == x.markers;
    if cut == |name| {
      return 0;
    }
    n := ExtraTitleWords(x, name[..cut], titles);
  }

  // ---------- the gate ----------

  /** What was asked for. */
  datatype Query = Query(typ: string, title: string, aliases: seq<string>, year: int, season: int)

  function Titles(q: Query): seq<string> {
    [q.title] + q.aliases
  }

  function Slack(q: Query): int {
    if |q.aliases| > 0 then 3 else 1
  }

  ghost predicate MovieFits(x: Text, q: Query, name: string) {
    !x.episode(name) && YearAgrees(x.years(name), q.year, Slack(q))
  }

  ghost predicate EpisodeFits(x: Text, q: Query, name: string) {
    && !x.movie(name)
    && SeasonFits(x, name, q.season)
    && ExtraCountBeforeMarker(x, name, Titles(q)) < 2
    && (IdentifiedForSeason(x, name, q.season)
        || (YearAgrees(x.years(name), q.year, Slack(q) + (q.season - 1) * 3) && ExtraCount(x, name, Titles(q)) < 2))
  }

  /** What a release that is kept has to be. */
  ghost predicate Relevant(x: Text, q: Query, name: string) {
    && !x.nonFeature(name)
    && (exists t :: t in Titles(q) && TitleMatches(x, name, t))
    && (q.typ == "movie" ==> MovieFits(x, q, name))
    && (q.typ != "movie" && q.season > 0 ==> EpisodeFits(x, q, name))
  }

  method MatchesAny(x: Text, name: string, titles: seq<string>) returns (matched: bool)
    ensures matched == exists t :: t in titles && TitleMatches(x, name, t)
  {
    for i := 0 to |titles|
      invariant forall k :: 0 <= k < i ==> !TitleMatches(x, name, titles[k])
    {
      if TitleMatches(x, name, titles[i]) {
        return true;
      }
    }
    return false;
  }

  /** The body of the loop of `filterRelevant`, for one name. */
  method Judge(x: Text, q: Query, name: string) returns (keep: bool)
    ensures keep == Relevant(x, q, name)
  {
    var titles, slack := Titles(q), Slack(q);
    if x.nonFeature(name) {
      return false;
    }
    var matched := MatchesAny(x, name, titles);
    if !matched {
      return false;
    }
    if q.typ == "movie" {
      if x.episode(name) {
        return false;
      }
      keep := CheckYear(x.years(name), q.year, slack);
      return;
    }
    if q.season <= 0 {
      return true;
    }
    keep := JudgeEpisode(x, q, name);
  }

  method JudgeEpisode(x: Text, q: Query, name: string) returns (keep: bool)
    requires q.season > 0
    ensures keep == EpisodeFits(x, q, name)
  {
    if x.movie(name) {
      return false;
    }
    var s := ReleaseSeason(x, name, q.season);
    if s > 0 && s != q.season {
      return false;
    }
    var before := ExtraTitleWordsBeforeMarker(x, name, Titles(q));
    if before >= 2 {
      return false;
    }
    if !IdentifiedForSeason(x, name, q.season) {
      var agrees := CheckYear(x.years(name), q.year, Slack(q) + (q.season - 1) * 3);
      if !agrees {
        return false;
      }
      var extra := ExtraTitleWords(x, name, Titles(q));
      if extra >= 2 {
        return false;
      }
    }
    return true;
  }

  ghost function KeepRelevant(x: Text, q: Query): Result -> bool {
    (r: Result) => Relevant(x, q, r.title)
  }

  /** `filterRelevant`: the relevant results in order, and how many went. */
  method FilterRelevant(x: Text, q: Query, results: seq<Result>) returns (keep: seq<Result>, dropped: nat)
    ensures keep == Filter(KeepRelevant(x, q), results)
    ensures |keep| + dropped == |results|
  {
    if |results| == 0 {
      return results, 0;
    }
    keep, dropped := [], 0;
    for i := 0 to |results|
      invariant keep == Filter(KeepRelevant(x, q), results[..i])
      invariant |keep| + dropped == i
    {
      assert results[..i + 1][..i] == results[..i];
      var relevant := Judge(x, q, results[i].title);
      if !relevant {
        dropped := dropped + 1;
        continue;
      }
      keep := keep + [results[i]];
    }
    assert results[..|results|] == results;
  }

  // ---------- more aliases ----------

  /** The same request with every alias it had, and perhaps more. */
  predicate MoreAliases(q: Query, p: Query) {
    p == q.(aliases := p.aliases) && forall a :: a in q.aliases ==> a in p.aliases
  }

  lemma MoreAliasesFewerExtras(x: Text, name: string, q: Query, p: Query)
    requires MoreAliases(q, p)
    ensures ExtraCount(x, name, Titles(p)) <= ExtraCount(x, name, Titles(q))
  {
    var words := HintWords(x, x.bare(name));
    forall w | IsOwn(x, Titles(q), w) ensures IsOwn(x, Titles(p), w) {
      var t :| t in Titles(q) && Names(x, HintWords(x, t), w);
      assert t in Titles(p);
    }
    SubsetSize(Extras(x, words, Titles(p)), Extras(x, words, Titles(q)));
  }

  lemma MoreSlack(years: seq<nat>, year: int, slack: int, more: int)
    requires slack <= more
    ensures YearAgrees(years, year, slack) ==> YearAgrees(years, year, more)
  {
    if y :| y in years && Near(y, year, slack) {
      assert Near(y, year, more);
    }
  }

  /** An extra alias never loses a release that was kept. */
  lemma AliasesOnlyAdmit(x: Text, q: Query, p: Query, name: string)
    requires MoreAliases(q, p) && Relevant(x, q, name)
    ensures Relevant(x, p, name)
  {
    var t :| t in Titles(q) && TitleMatches(x, name, t);
    assert t in Titles(p);
    assert q.aliases != [] ==> q.aliases[0] in p.aliases;
    MoreSlack(x.years(name), q.year, Slack(q), Slack(p));
    MoreSlack(x.years(name), q.year, Slack(q) + (q.season - 1) * 3, Slack(p) + (q.season - 1) * 3);
    MoreAliasesFewerExtras(x, name, q, p);
    MoreAliasesFewerExtras(x, name[..FirstMarker(x.markers, name)], q, p);
  }

  lemma {:induction false} FilterWithin(weak: Result -> bool, strict: Result -> bool, s: seq<Result>)
    requires forall r :: strict(r) ==> weak(r)
    ensures Filter(strict, Filter(weak, s)) == Filter(strict, s)
  {
    if s != [] {
      var n := |s| - 1;
      FilterWithin(weak, strict, s[..n]);
      var w := Filter(weak, s[..n]);
      if weak(s[n]) {
        assert Filter(weak, s) == w + [s[n]];
        assert (w + [s[n]])[..|w|] == w;
      } else {
        assert Filter(weak, s) == w;
      }
    }
  }

  /** What is kept without the extra aliases is what is kept of the results kept with them, in
      the same order: more aliases only put releases back between the others. */
  lemma AliasesOnlyInsert(x: Text, q: Query, p: Query, results: seq<Result>)
    requires MoreAliases(q, p)
    ensures var less, more := KeepRelevant(x, q), KeepRelevant(x, p);
      Filter(less, Filter(more, results)) == Filter(less, results)
  {
    forall r: Result | KeepRelevant(x, q)(r) ensures KeepRelevant(x, p)(r) {
      AliasesOnlyAdmit(x, q, p, r.title);
    }
    FilterWithin(KeepRelevant(x, p), KeepRelevant(x, q), results);
  }

  /** Neither the order of the aliases nor repeats among them make a difference. */
  lemma AliasOrderIsIrrelevant(x: Text, q: Query, p: Query, name: string)
    requires MoreAliases(q, p) && MoreAliases(p, q)
    ensures Relevant(x, q, name) == Relevant(x, p, name)
  {
    if Relevant(x, q, name) {
      AliasesOnlyAdmit(x, q, p, name);
    }
    if Relevant(x, p, name) {
      AliasesOnlyAdmit(x, p, q, name);
    }
  }
}
