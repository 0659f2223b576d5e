/** Ordering, filtering and cutting the merged search results (indexers.go). */
module Ranking {
  import opened Basics
  import opened SearchMerge

  const LIST_CAP: nat := 40

  // ---------- sorting ----------

  function HasScore(x: real): Result -> bool {
    (r: Result) => r.score == x
  }

  /** The results with exactly this score, in order. */
  function WithScore(s: seq<Result>, x: real): seq<Result> {
    Filter(HasScore(x), s)
  }

  predicate Descending(s: seq<Result>) {
    forall i, j :: 0 <= i < j < |s| ==> s[i].score >= s[j].score
  }

  /** Equal scores are in the same order in both lists, score by score. */
  ghost predicate SameClasses(s: seq<Result>, t: seq<Result>) {
    forall x :: WithScore(s, x) == WithScore(t, x)
  }

  function Swapped(s: seq<Result>, j: nat): seq<Result>
    requires 0 < j < |s|
  {
    s[j := s[j - 1]][j - 1 := s[j]]
  }

  lemma SwapKeepsClasses(s: seq<Result>, j: nat)
    requires 0 < j < |s| && s[j].score != s[j - 1].score
    ensures SameClasses(s, Swapped(s, j))
  {
    var a, p, q, b := s[..j - 1], s[j - 1], s[j], s[j + 1..];
    assert s == a + [p, q] + b;
    assert Swapped(s, j) == a + [q, p] + b;
    forall x ensures WithScore(s, x) == WithScore(Swapped(s, j), x) {
      PairClasses(p, q, x);
      ThreeParts(a, [p, q], b, x);
      ThreeParts(a, [q, p], b, x);
    }
  }

  lemma ThreeParts(a: seq<Result>, b: seq<Result>, c: seq<Result>, x: real)
    ensures WithScore(a + b + c, x) == WithScore(a, x) + WithScore(b, x) + WithScore(c, x)
  {
    FilterConcat(HasScore(x), a + b, c);
    FilterConcat(HasScore(x), a, b);
  }

  lemma PairClasses(p: Result, q: Result, x: real)
    requires p.score != q.score
    ensures WithScore([p, q], x) == WithScore([q, p], x)
  {
    FilterOne(HasScore(x), p);
    FilterOne(HasScore(x), q);
    FilterConcat(HasScore(x), [p], [q]);
    FilterConcat(HasScore(x), [q], [p]);
    assert [p, q] == [p] + [q] && [q, p] == [q] + [p];
  }

  /** A stable ranking: best score first, equal scores in the order they came in. */
  ghost predicate Ranks(s: seq<Result>, t: seq<Result>) {
    Descending(t) && SameClasses(s, t) && multiset(s) == multiset(t)
  }

  /** `sortResults`: insertion by swaps of neighbours. */
  method SortResults(rs: array<Result>)
    modifies rs
    ensures Ranks(old(rs[..]), rs[..])
  {
    ghost var was := rs[..];
    var i := 1;
    while i < rs.Length
      invariant 1 <= i && (i <= rs.Length || rs.Length == 0)
      invariant i <= rs.Length ==> Descending(rs[..i])
      invariant SameClasses(was, rs[..])
      decreases rs.Length - i
    {
      MoveUp(rs, i, was);
      i := i + 1;
    }
    assert rs[..rs.Length] == rs[..];
    SameClassesPermute(was, rs[..]);
  }

  /** The inner loop: the result at `i` moves up past those with a lower score. */
  method MoveUp(rs: array<Result>, i: nat, ghost was: seq<Result>)
    requires 0 < i < rs.Length && Descending(rs[..i]) && SameClasses(was, rs[..])
    modifies rs
    ensures Descending(rs[..i + 1]) && SameClasses(was, rs[..])
  {
    var j := i;
    while j > 0 && rs[j].score > rs[j - 1].score
      invariant 0 <= j <= i
      invariant AlmostDescending(rs[..], i + 1, j) && SameClasses(was, rs[..])
    {
      SwapStep(was, rs[..], i + 1, j);
      ghost var next := Swapped(rs[..], j);
      rs[j], rs[j - 1] := rs[j - 1], rs[j];
      assert rs[..] == next;
      j := j - 1;
    }
  }

  lemma SwapStep(was: seq<Result>, s: seq<Result>, n: nat, j: nat)
    requires 0 < j < n <= |s| && AlmostDescending(s, n, j) && SameClasses(was, s)
    requires s[j].score > s[j - 1].score
    ensures AlmostDescending(Swapped(s, j), n, j - 1) && SameClasses(was, Swapped(s, j))
  {
    SwapKeepsClasses(s, j);
    forall x ensures WithScore(was, x) == WithScore(Swapped(s, j), x) {
      assert WithScore(was, x) == WithScore(s, x);
    }
  }

  /** The first `n` are in order but for the one at `j`, which may belong further left. */
  predicate AlmostDescending(s: seq<Result>, n: nat, j: nat)
    requires j < n <= |s|
  {
    forall k, l :: 0 <= k < l < n && l != j ==> s[k].score >= s[l].score
  }

  /** There is only one stable ranking of a list. */
  lemma RankingUnique(s: seq<Result>, t: seq<Result>, u: seq<Result>)
    requires Ranks(s, t) && Ranks(s, u)
    ensures t == u
  {
    SameClassesEqual(t, u);
  }

  lemma WithScoreHas(s: seq<Result>, i: nat)
    requires i < |s|
    ensures s[i] in WithScore(s, s[i].score)
  {
    CountInClass(s, s[i]);
    assert s[i] in multiset(s);
  }

  lemma {:induction false} FilterCounts(keep: Result -> bool, s: seq<Result>, r: Result)
    ensures multiset(Filter(keep, s))[r] == if keep(r) then multiset(s)[r] else 0
  {
    if s != [] {
      var n := |s| - 1;
      var c := Filter(keep, s[..n]);
      FilterCounts(keep, s[..n], r);
      assert s == s[..n] + [s[n]];
      if keep(s[n]) {
        assert Filter(keep, s) == c + [s[n]];
      } else {
        assert Filter(keep, s) == c;
      }
    }
  }

  /** A result occurs in its own score class as often as in the whole list. */
  lemma CountInClass(s: seq<Result>, r: Result)
    ensures multiset(WithScore(s, r.score))[r] == multiset(s)[r]
  {
    FilterCounts(HasScore(r.score), s, r);
  }

  lemma SameClassesPermute(s: seq<Result>, t: seq<Result>)
    requires SameClasses(s, t)
    ensures multiset(s) == multiset(t)
  {
    forall r ensures multiset(s)[r] == multiset(t)[r] {
      CountInClass(s, r);
      CountInClass(t, r);
      assert WithScore(s, r.score) == WithScore(t, r.score);
    }
  }

  lemma {:induction false} WithScoreOnly(s: seq<Result>, x: real) returns (at: seq<nat>)
    ensures |at| == |WithScore(s, x)|
    ensures forall k :: 0 <= k < |at| ==> at[k] < |s| && s[at[k]] == WithScore(s, x)[k] && s[at[k]].score == x
  {
    at := [];
    if s != [] {
      var n := |s| - 1;
      at := WithScoreOnly(s[..n], x);
      if s[n].score == x {
        at := at + [n];
      }
    }
  }

  lemma {:induction false} SameClassesEqual(t: seq<Result>, u: seq<Result>)
    requires Descending(t) && Descending(u) && SameClasses(t, u)
    ensures t == u
    decreases |t|
  {
    SameClassesPermute(t, u);
    assert |multiset(t)| == |multiset(u)|;
    if t == [] {
    } else {
      var m, n := |t| - 1, |u| - 1;
      DropLast(t, u);
      SameClassesEqual(t[..m], u[..n]);
      assert t == t[..m] + [t[m]] && u == u[..n] + [u[n]];
    }
  }

  lemma DropLast(t: seq<Result>, u: seq<Result>)
    requires t != [] && u != [] && Descending(t) && Descending(u) && SameClasses(t, u)
    ensures t[|t| - 1] == u[|u| - 1] && SameClasses(t[..|t| - 1], u[..|u| - 1])
  {
    var m, n := |t| - 1, |u| - 1;
    var x := LastScore(t, u);
    assert WithScore(t, x)[|WithScore(t, x)| - 1] == t[m];
    assert WithScore(u, x)[|WithScore(u, x)| - 1] == u[n];
    forall y ensures WithScore(t[..m], y) == WithScore(u[..n], y) {
      assert WithScore(t, y) == WithScore(u, y);
      var tail := if x == y then [t[m]] else [];
      AppendCancels(WithScore(t[..m], y), WithScore(u[..n], y), tail);
    }
  }

  lemma AppendCancels<T>(a: seq<T>, b: seq<T>, c: seq<T>)
    requires a + c == b + c
    ensures a == b
  {
    assert |a| == |b|;
    forall i | 0 <= i < |a| ensures a[i] == b[i] {
      assert (a + c)[i] == (b + c)[i];
    }
  }

  lemma LastScore(t: seq<Result>, u: seq<Result>) returns (x: real)
    requires t != [] && u != [] && Descending(t) && Descending(u) && SameClasses(t, u)
    ensures t[|t| - 1].score == u[|u| - 1].score == x
  {
    x := t[|t| - 1].score;
    LastScoreBound(t, u);
    LastScoreBound(u, t);
  }

  lemma LastScoreBound(t: seq<Result>, u: seq<Result>)
    requires t != [] && u != [] && Descending(t) && Descending(u) && SameClasses(t, u)
    ensures t[|t| - 1].score >= u[|u| - 1].score
  {
    var x := t[|t| - 1].score;
    WithScoreHas(t, |t| - 1);
    assert WithScore(t, x) == WithScore(u, x);
    var at := WithScoreOnly(u, x);
    var k :| 0 <= k < |WithScore(u, x)| && WithScore(u, x)[k] == t[|t| - 1];
    assert u[at[k]].score == x;
  }

  // ---------- from the merged results to the answer ----------

  /** What was asked for. Scoring and the reading of episode numbers out of a title are
      functions of the request. */
  datatype Request = Request(typ: string, season: int, ep: int,
                             score: (Result, string, int, int) -> real, signal: (string, int, int) -> int)

  /** For a numbered request, titles that state another episode, another season or a pack do not fit. */
  function Fits(q: Request): Result -> bool {
    (r: Result) => !(q.typ == "series" && q.season > 0) || q.signal(r.title, q.season, q.ep) >= 0
  }

  function Live(): Result -> bool {
    (r: Result) => r.seeders > 0
  }

  function WithOwnScore(q: Request, r: Result): Result {
    r.(score := q.score(r, q.typ, q.season, q.ep))
  }

  function Scored(q: Request, all: seq<Result>): seq<Result> {
    seq(|all|, i requires 0 <= i < |all| => WithOwnScore(q, all[i]))
  }

  /** The scored results that pass the episode filter. */
  function Candidates(q: Request, all: seq<Result>): seq<Result> {
    Filter(Fits(q), Scored(q, all))
  }

  /** Without the dead ones, unless there is nothing else. */
  function LiveOrAll(s: seq<Result>): seq<Result> {
    if Filter(Live(), s) == [] then s else Filter(Live(), s)
  }

  function Cut(s: seq<Result>): seq<Result> {
    if |s| > LIST_CAP then s[..LIST_CAP] else s
  }

  method FilterResults(keep: Result -> bool, rs: seq<Result>) returns (kept: seq<Result>)
    ensures kept == Filter(keep, rs)
  {
    kept := [];
    for i := 0 to |rs|
      invariant kept == Filter(keep, rs[..i])
    {
      assert rs[..i + 1][..i] == rs[..i];
      if keep(rs[i]) {
        kept := kept + [rs[i]];
      }
    }
    assert rs[..|rs|] == rs;
  }

  method DropDead(rs: seq<Result>) returns (out: seq<Result>)
    ensures out == LiveOrAll(rs)
  {
    var live := FilterResults(Live(), rs);
    if |live| == 0 {
      return rs;
    }
    return live;
  }

  /** What `searchAll` does after the drain: score in place, filter, sort in place, drop, cut. */
  method Present(q: Request, merged: array<Result>) returns (out: seq<Result>, ghost ranked: seq<Result>)
    modifies merged
    ensures Ranks(Candidates(q, old(merged[..])), ranked)
    ensures out == Cut(LiveOrAll(ranked))
  {
    ghost var was := merged[..];
    for i := 0 to merged.Length
      invariant forall k :: 0 <= k < i ==> merged[k] == WithOwnScore(q, was[k])
      invariant forall k :: i <= k < merged.Length ==> merged[k] == was[k]
    {
      merged[i] := WithOwnScore(q, merged[i]);
    }
    assert merged[..] == Scored(q, was);
    var keep := FilterResults(Fits(q), merged[..]);
    var rs := new Result[|keep|](i requires 0 <= i < |keep| => keep[i]);
    assert rs[..] == keep;
    SortResults(rs);
    ranked := rs[..];
    out := DropDead(rs[..]);
    if |out| > LIST_CAP {
      out := out[..LIST_CAP];
    }
  }

  lemma {:induction false} FilterStaysDescending(keep: Result -> bool, s: seq<Result>)
    requires Descending(s)
    ensures Descending(Filter(keep, s))
    ensures s != [] ==> forall r :: r in Filter(keep, s) ==> r.score >= s[|s| - 1].score
  {
    if s != [] {
      var n := |s| - 1;
      FilterStaysDescending(keep, s[..n]);
      assert n > 0 ==> s[n - 1].score >= s[n].score;
      assert forall r :: r in Filter(keep, s[..n]) ==> r.score >= s[n].score;
    }
  }

  /** A release the answer may contain: a live one, or any when none is live. */
  ghost predicate Eligible(cands: seq<Result>, c: Result) {
    c.seeders > 0 || forall r :: r in cands ==> r.seeders <= 0
  }

  lemma EligibleCounts(cands: seq<Result>, ranked: seq<Result>, c: Result)
    requires multiset(cands) == multiset(ranked)
    ensures multiset(LiveOrAll(ranked))[c] == if Eligible(cands, c) then multiset(cands)[c] else 0
  {
    var live := Filter(Live(), ranked);
    forall r: Result ensures multiset(live)[r] == if r.seeders > 0 then multiset(ranked)[r] else 0 {
      FilterCounts(Live(), ranked, r);
    }
    if live == [] {
      forall r | r in cands ensures r.seeders <= 0 {
        assert r in multiset(cands);
        assert multiset(live)[r] == 0;
      }
    } else {
      var r := live[0];
      assert r in multiset(live);
      assert r.seeders > 0 && r in multiset(cands);
      assert r in cands;
    }
  }

  /** Only eligible candidates are in, as often as they came; one that is left out makes room for
      a full list of results that score at least as well. */
  ghost predicate FairlyPlaced(cands: seq<Result>, out: seq<Result>, c: Result) {
    && (c in out ==> c in cands && Eligible(cands, c))
    && multiset(out)[c] <= multiset(cands)[c]
    && (Eligible(cands, c) && multiset(out)[c] < multiset(cands)[c] ==>
          |out| == LIST_CAP && forall r :: r in out ==> r.score >= c.score)
  }

  /** The answer is the top of the list: at most forty eligible candidates, best first, and an
      eligible candidate is left out only when forty that score at least as well are in. */
  lemma AnswerIsTheTop(cands: seq<Result>, ranked: seq<Result>, out: seq<Result>)
    requires Ranks(cands, ranked) && out == Cut(LiveOrAll(ranked))
    ensures Descending(out) && |out| <= LIST_CAP
    ensures forall c :: FairlyPlaced(cands, out, c)
  {
    FilterStaysDescending(Live(), ranked);
    forall c ensures FairlyPlaced(cands, out, c) {
      EligibleCounts(cands, ranked, c);
      CutKeepsTheTop(LiveOrAll(ranked), c);
      assert c in cands <==> c in multiset(cands);
    }
  }

  lemma CutKeepsTheTop(full: seq<Result>, c: Result)
    requires Descending(full)
    ensures c in Cut(full) ==> 0 < multiset(full)[c]
    ensures multiset(Cut(full))[c] <= multiset(full)[c]
    ensures multiset(Cut(full))[c] < multiset(full)[c] ==>
      |Cut(full)| == LIST_CAP && forall r :: r in Cut(full) ==> r.score >= c.score
  {
    var out := Cut(full);
    var rest := full[|out|..];
    assert full == out + rest;
    assert multiset(full)[c] == multiset(out)[c] + multiset(rest)[c];
    if c in out {
      assert c in multiset(out);
    }
    if multiset(out)[c] < multiset(full)[c] {
      assert c in multiset(rest);
      var k :| 0 <= k < |rest| && rest[k] == c;
      assert full[|out| + k] == c;
    }
  }

  // ---------- the answer and the order of arrival ----------

  ghost predicate DistinctScores(s: seq<Result>) {
    forall i, j :: 0 <= i < j < |s| ==> s[i].score != s[j].score
  }

  /** With all scores different, a score class is one result or none. */
  lemma {:induction false} ClassIsSingle(s: seq<Result>, x: real)
    requires DistinctScores(s)
    ensures |WithScore(s, x)| <= 1
    ensures forall r :: r in WithScore(s, x) <==> r in s && r.score == x
  {
    if s != [] {
      var n := |s| - 1;
      ClassIsSingle(s[..n], x);
      forall r ensures r in WithScore(s, x) <==> r in s && r.score == x {
        assert s == s[..n] + [s[n]];
      }
      assert forall r :: r in s[..n] ==> r.score != s[n].score;
      assert WithScore(s[..n], x) != [] ==> WithScore(s[..n], x)[0] in s[..n];
    }
  }

  lemma SameResultsSameClasses(s: seq<Result>, t: seq<Result>)
    requires DistinctScores(s) && DistinctScores(t)
    requires forall r :: r in s <==> r in t
    ensures SameClasses(s, t)
  {
    forall x ensures WithScore(s, x) == WithScore(t, x) {
      ClassIsSingle(s, x);
      ClassIsSingle(t, x);
      var c, d := WithScore(s, x), WithScore(t, x);
      assert c != [] ==> c[0] in d;
      assert d != [] ==> d[0] in c;
    }
  }

  lemma RankedAlike(s: seq<Result>, t: seq<Result>, u: seq<Result>, v: seq<Result>)
    requires SameClasses(s, t) && Ranks(s, u) && Ranks(t, v)
    ensures u == v
  {
    forall x ensures WithScore(u, x) == WithScore(v, x) {
      assert WithScore(s, x) == WithScore(t, x);
      assert WithScore(s, x) == WithScore(u, x);
      assert WithScore(t, x) == WithScore(v, x);
    }
    SameClassesEqual(u, v);
  }

  lemma CandidatesAre(q: Request, all: seq<Result>, r: Result)
    ensures r in Candidates(q, all) <==> Fits(q)(r) && exists a :: a in all && WithOwnScore(q, a) == r
  {
    FilterMembers(Fits(q), Scored(q, all));
    if a :| a in all && WithOwnScore(q, a) == r {
      var i :| 0 <= i < |all| && all[i] == a;
      assert Scored(q, all)[i] == r;
    }
    if r in Scored(q, all) {
      var i :| 0 <= i < |all| && Scored(q, all)[i] == r;
      assert all[i] in all && WithOwnScore(q, all[i]) == r;
    }
  }

  /** What is in the list shown: releases that were merged, with their score for this request, none that
      states another episode when an episode is asked for, none without seeders unless nothing fitting
      has any, best first and at most forty. */
  lemma AnswerMeans(q: Request, all: seq<Result>, ranked: seq<Result>, out: seq<Result>)
    requires Ranks(Candidates(q, all), ranked) && out == Cut(LiveOrAll(ranked))
    ensures |out| <= 40 && forall i, j :: 0 <= i < j < |out| ==> out[i].score >= out[j].score
    ensures forall r :: r in out ==>
      && Fitting(q, all, r)
      && (r.seeders > 0 || forall c :: Fitting(q, all, c) ==> c.seeders <= 0)
    ensures forall r :: Fitting(q, all, r) && r.seeders > 0 && r !in out ==>
      |out| == 40 && forall c :: c in out ==> c.score >= r.score
  {
    var cands := Candidates(q, all);
    AnswerIsTheTop(cands, ranked, out);
    forall r ensures r in cands <==> Fitting(q, all, r) {
      CandidatesAre(q, all, r);
    }
    forall r | Fitting(q, all, r) && r.seeders > 0 && r !in out
      ensures |out| == 40 && forall c :: c in out ==> c.score >= r.score
    {
      assert FairlyPlaced(cands, out, r);
      assert r in multiset(cands);
    }
    forall r | r in out
      ensures Fitting(q, all, r) && (r.seeders > 0 || forall c :: Fitting(q, all, c) ==> c.seeders <= 0)
    {
      assert FairlyPlaced(cands, out, r);
    }
  }

  /** A merged release with its score, which does not state another episode when one is asked for. */
  ghost predicate Fitting(q: Request, all: seq<Result>, r: Result) {
    && (q.typ == "series" && q.season > 0 ==> q.signal(r.title, q.season, q.ep) >= 0)
    && exists a :: a in all && r == a.(score := q.score(a, q.typ, q.season, q.ep))
  }

  lemma MergedAre(rs: seq<Result>, r: Result)
    ensures r in Merge(rs) <==> r.infoHash != "" && Find(Merge(rs), r.infoHash) == Some(r)
  {
    var m := Merge(rs);
    MergeKeepsTheBest(rs, r.infoHash);
    if r in m {
      var i :| 0 <= i < |m| && m[i] == r;
      FoundAt(m, i);
    }
  }

  /** When no hash has two records tied for the most seeders and no two candidates score the
      same, the sources may answer in any order and the list shown is the same list. */
  lemma ArrivalOrderKeepsTheAnswer(q: Request, a: seq<Result>, b: seq<Result>, u: seq<Result>, v: seq<Result>)
    requires multiset(a) == multiset(b)
    requires forall h :: h != "" ==> !Tied(a, h)
    requires DistinctScores(Candidates(q, Merge(a))) && DistinctScores(Candidates(q, Merge(b)))
    requires Ranks(Candidates(q, Merge(a)), u) && Ranks(Candidates(q, Merge(b)), v)
    ensures Cut(LiveOrAll(u)) == Cut(LiveOrAll(v))
  {
    forall r ensures r in Merge(a) <==> r in Merge(b) {
      MergedAre(a, r);
      MergedAre(b, r);
      if r.infoHash != "" {
        UntiedAgree(a, a, b, r.infoHash);
      }
    }
    var s, t := Candidates(q, Merge(a)), Candidates(q, Merge(b));
    forall r ensures r in s <==> r in t {
      CandidatesAre(q, Merge(a), r);
      CandidatesAre(q, Merge(b), r);
    }
    SameResultsSameClasses(s, t);
    RankedAlike(s, t, u, v);
  }
}
