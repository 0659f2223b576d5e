/** Merging, scoring order and cutting of search results (indexers.go). */
module SearchMerge {
  import opened Basics

  datatype Result = Result(title: string, infoHash: string, size: int, seeders: int, indexer: string, score: real)

  /** One source's answer to one query. */
  datatype Answer = Answer(name: string, res: seq<Result>, err: string, failed: bool)

  // ---------- merging ----------

  /** Where a hash is in a list, or the length of the list. */
  function IndexOf(m: seq<Result>, h: string): (i: nat)
    ensures i <= |m|
    ensures i < |m| ==> m[i].infoHash == h
    ensures forall k :: 0 <= k < i ==> m[k].infoHash != h
  {
    if m == [] then 0
    else if m[0].infoHash == h then 0
    else 1 + IndexOf(m[1..], h)
  }

  function MergeOne(m: seq<Result>, r: Result): seq<Result> {
    var i := IndexOf(m, r.infoHash);
    if r.infoHash == "" then m
    else if i == |m| then m + [r]
    else if r.seeders > m[i].seeders then m[i := r]
    else m
  }

  /** The merged list after the results `rs` have arrived in this order. */
  function Merge(rs: seq<Result>): seq<Result> {
    if rs == [] then [] else MergeOne(Merge(rs[..|rs| - 1]), rs[|rs| - 1])
  }

  /** The results of the answers that did not fail, in arrival order. */
  function Delivered(arrivals: seq<Answer>): seq<Result> {
    if arrivals == [] then []
    else
      var last := arrivals[|arrivals| - 1];
      Delivered(arrivals[..|arrivals| - 1]) + (if last.failed then [] else last.res)
  }

  function Errors(arrivals: seq<Answer>): seq<string> {
    if arrivals == [] then []
    else
      var last := arrivals[|arrivals| - 1];
      Errors(arrivals[..|arrivals| - 1]) + (if last.failed then [last.name + ": " + last.err] else [])
  }

  predicate DistinctHashes(m: seq<Result>) {
    forall i, j :: 0 <= i < j < |m| ==> m[i].infoHash != m[j].infoHash
  }

  /** The record a list holds for a hash. */
  function Find(m: seq<Result>, h: string): Option<Result> {
    var i := IndexOf(m, h);
    if i < |m| then Some(m[i]) else None
  }

  /** Of the results for `h`, the first to arrive among those reporting the most seeders. */
  function Best(rs: seq<Result>, h: string): Option<Result> {
    if rs == [] then None
    else
      var before, r := Best(rs[..|rs| - 1], h), rs[|rs| - 1];
      if r.infoHash == h && (before.None? || r.seeders > before.value.seeders) then Some(r) else before
  }

  predicate Mentions(rs: seq<Result>, h: string) {
    exists j :: 0 <= j < |rs| && rs[j].infoHash == h
  }

  /** `rs[k]` reports the most seeders for `h`, and was the first to report that many. */
  ghost predicate IsFirstMaximum(rs: seq<Result>, h: string, k: nat) {
    && k < |rs| && rs[k].infoHash == h
    && forall j :: 0 <= j < |rs| && rs[j].infoHash == h ==>
         rs[j].seeders <= rs[k].seeders && (j < k ==> rs[j].seeders < rs[k].seeders)
  }

  lemma FirstMaximumStays(rs: seq<Result>, h: string, k: nat)
    requires 0 < |rs| && IsFirstMaximum(rs[..|rs| - 1], h, k)
    requires rs[|rs| - 1].infoHash == h ==> rs[|rs| - 1].seeders <= rs[k].seeders
    ensures IsFirstMaximum(rs, h, k)
  {
    var init := rs[..|rs| - 1];
    forall j | 0 <= j < |rs| && rs[j].infoHash == h
      ensures rs[j].seeders <= rs[k].seeders && (j < k ==> rs[j].seeders < rs[k].seeders)
    {
      if j < |init| {
        assert init[j] == rs[j] && init[k] == rs[k];
      }
    }
  }

  lemma LastIsFirstMaximum(rs: seq<Result>, h: string, k: int)
    requires 0 < |rs| && rs[|rs| - 1].infoHash == h
    requires var init := rs[..|rs| - 1];
      if k < 0 then !Mentions(init, h) else IsFirstMaximum(init, h, k) && init[k].seeders < rs[|rs| - 1].seeders
    ensures IsFirstMaximum(rs, h, |rs| - 1)
  {
    var init := rs[..|rs| - 1];
    forall j | 0 <= j < |rs| && rs[j].infoHash == h
      ensures rs[j].seeders <= rs[|rs| - 1].seeders && (j < |rs| - 1 ==> rs[j].seeders < rs[|rs| - 1].seeders)
    {
      if j < |init| {
        assert init[j] == rs[j];
      }
    }
  }

  /** What `Best` means: a first maximum, whenever the hash occurs at all. */
  lemma {:induction false} BestIsFirstMaximum(rs: seq<Result>, h: string) returns (k: int)
    ensures Best(rs, h).None? <==> !Mentions(rs, h)
    ensures Best(rs, h).None? ==> k == -1
    ensures Best(rs, h).Some? ==> 0 <= k && IsFirstMaximum(rs, h, k) && rs[k] == Best(rs, h).value
  {
    k := -1;
    if rs != [] {
      var n := |rs| - 1;
      k := BestIsFirstMaximum(rs[..n], h);
      if rs[n].infoHash == h && (k < 0 || rs[n].seeders > rs[k].seeders) {
        LastIsFirstMaximum(rs, h, k);
        k := n;
      } else if k >= 0 {
        FirstMaximumStays(rs, h, k);
      } else {
        assert forall j :: 0 <= j < n ==> rs[j] == rs[..n][j];
      }
    }
  }

  lemma FoundAt(m: seq<Result>, i: nat)
    requires i < |m| && DistinctHashes(m)
    ensures IndexOf(m, m[i].infoHash) == i
  {
  }

  /** A merge moves nothing that is in the list, and puts a new hash at its end. */
  lemma IndexStays(all: seq<Result>, r: Result, h: string)
    requires DistinctHashes(all)
    ensures var t := MergeOne(all, r);
      IndexOf(t, h) == if IndexOf(all, h) < |all| then IndexOf(all, h)
                       else if h == r.infoHash && h != "" then |all| else |t|
  {
    var t := MergeOne(all, r);
    var i, j := IndexOf(all, r.infoHash), IndexOf(all, h);
    if j < |all| {
      assert t[j].infoHash == h;
      assert forall k :: 0 <= k < j ==> t[k].infoHash == all[k].infoHash;
    } else {
      assert forall k :: 0 <= k < |all| ==> t[k].infoHash == all[k].infoHash;
      assert |t| > |all| ==> t[|all|] == r;
    }
  }

  lemma MergeOneFinds(m: seq<Result>, r: Result, h: string)
    requires DistinctHashes(m)
    ensures DistinctHashes(MergeOne(m, r))
    ensures Find(MergeOne(m, r), h) ==
      if r.infoHash == h && h != "" && (Find(m, h).None? || r.seeders > Find(m, h).value.seeders) then Some(r)
      else Find(m, h)
  {
    MergeOneDistinct(m, r);
    IndexStays(m, r, h);
  }

  lemma MergeOneDistinct(m: seq<Result>, r: Result)
    requires DistinctHashes(m)
    ensures DistinctHashes(MergeOne(m, r))
  {
  }

  /** The merge keeps one record per hash: the best one, the earliest among equals. Results
      without a hash are dropped. */
  lemma {:induction false} MergeKeepsTheBest(rs: seq<Result>, h: string)
    ensures DistinctHashes(Merge(rs))
    ensures Find(Merge(rs), h) == if h == "" then None else Best(rs, h)
  {
    if rs != [] {
      MergeKeepsTheBest(rs[..|rs| - 1], h);
      MergeOneFinds(Merge(rs[..|rs| - 1]), rs[|rs| - 1], h);
    }
  }

  /** The index map of the drain loop. */
  ghost predicate Indexes(seen: map<string, nat>, all: seq<Result>) {
    forall h {:trigger IndexedAt(seen, all, h)} :: IndexedAt(seen, all, h)
  }

  predicate IndexedAt(seen: map<string, nat>, all: seq<Result>, h: string) {
    if h in seen then seen[h] < |all| && IndexOf(all, h) == seen[h] else IndexOf(all, h) == |all|
  }

  /** What the loop does to the list and to the map, by whether the hash has been seen. */
  function SeenNext(seen: map<string, nat>, all: seq<Result>, r: Result): map<string, nat> {
    if r.infoHash == "" || r.infoHash in seen then seen else seen[r.infoHash := |all|]
  }

  lemma IndexesNext(seen: map<string, nat>, all: seq<Result>, r: Result)
    requires Indexes(seen, all) && DistinctHashes(all)
    ensures IndexedAt(seen, all, r.infoHash)
    ensures DistinctHashes(MergeOne(all, r)) && Indexes(SeenNext(seen, all, r), MergeOne(all, r))
  {
    MergeOneFinds(all, r, r.infoHash);
    forall h ensures IndexedAt(SeenNext(seen, all, r), MergeOne(all, r), h) {
      assert IndexedAt(seen, all, h) && IndexedAt(seen, all, r.infoHash);
      IndexStays(all, r, h);
    }
  }

  lemma DeliveredNext(arrivals: seq<Answer>, i: nat)
    requires i < |arrivals|
    ensures var o := arrivals[i];
      var before, errs := Delivered(arrivals[..i]), Errors(arrivals[..i]);
      && Delivered(arrivals[..i + 1]) == (if o.failed then before else before + o.res)
      && Errors(arrivals[..i + 1]) == (if o.failed then errs + [o.name + ": " + o.err] else errs)
  {
    assert arrivals[..i + 1][..i] == arrivals[..i];
  }

  lemma {:induction false} DeliveredConcat(a: seq<Answer>, b: seq<Answer>)
    ensures Delivered(a + b) == Delivered(a) + Delivered(b)
  {
    if b == [] {
      assert a + b == a;
    } else {
      var init, last := b[..|b| - 1], b[|b| - 1];
      DeliveredConcat(a, init);
      assert (a + b)[..|a + b| - 1] == a + init;
      Reassociate(Delivered(a), Delivered(init), if last.failed then [] else last.res);
    }
  }

  lemma {:induction false} ErrorsConcat(a: seq<Answer>, b: seq<Answer>)
    ensures Errors(a + b) == Errors(a) + Errors(b)
  {
    if b == [] {
      assert a + b == a;
    } else {
      var init, last := b[..|b| - 1], b[|b| - 1];
      ErrorsConcat(a, init);
      assert (a + b)[..|a + b| - 1] == a + init;
      Reassociate(Errors(a), Errors(init), if last.failed then [last.name + ": " + last.err] else []);
    }
  }

  lemma Reassociate<T>(a: seq<T>, b: seq<T>, c: seq<T>)
    ensures (a + b) + c == a + (b + c)
  {
  }

  /** An answer counts with all its results or, when it failed, with its error. */
  lemma OneArrival(o: Answer)
    ensures Delivered([o]) == (if o.failed then [] else o.res)
    ensures Errors([o]) == (if o.failed then [o.name + ": " + o.err] else [])
  {
    assert [o][..0] == [];
  }

  lemma MergeNext(before: seq<Result>, res: seq<Result>, j: nat)
    requires j < |res|
    ensures Merge(before + res[..j + 1]) == MergeOne(Merge(before + res[..j]), res[j])
  {
    assert (before + res[..j + 1])[..|before| + j] == before + res[..j];
  }

  /** The inner loop of the drain: one answer's results. */
  method MergeResults(res: seq<Result>, all0: seq<Result>, seen0: map<string, nat>, ghost before: seq<Result>)
    returns (all: seq<Result>, seen: map<string, nat>)
    requires all0 == Merge(before) && DistinctHashes(all0) && Indexes(seen0, all0)
    ensures all == Merge(before + res) && DistinctHashes(all) && Indexes(seen, all)
  {
    all, seen := all0, seen0;
    assert before + res[..0] == before;
    for j := 0 to |res|
      invariant all == Merge(before + res[..j]) && DistinctHashes(all) && Indexes(seen, all)
    {
      var r := res[j];
      IndexesNext(seen, all, r);
      MergeNext(before, res, j);
      if r.infoHash == "" {
        continue;
      }
      if r.infoHash in seen {
        if r.seeders > all[seen[r.infoHash]].seeders {
          all := all[seen[r.infoHash] := r];
        }
        continue;
      }
      seen := seen[r.infoHash := |all|];
      all := all + [r];
    }
    assert res[..|res|] == res;
  }

  /** The drain loop of `searchAll`, over the answers that have arrived. */
  method MergeAnswers(arrivals: seq<Answer>) returns (all: seq<Result>, errs: seq<string>)
    ensures all == Merge(Delivered(arrivals)) && errs == Errors(arrivals)
  {
    all, errs := [], [];
    var seen: map<string, nat> := map[];
    for i := 0 to |arrivals|
      invariant all == Merge(Delivered(arrivals[..i])) && errs == Errors(arrivals[..i])
      invariant DistinctHashes(all) && Indexes(seen, all)
    {
      var o := arrivals[i];
      DeliveredNext(arrivals, i);
      if o.failed {
        errs := errs + [o.name + ": " + o.err];
        continue;
      }
      all, seen := MergeResults(o.res, all, seen, Delivered(arrivals[..i]));
    }
    assert arrivals[..|arrivals|] == arrivals;
  }

  // ---------- the order of arrival ----------

  /** Any two arrival orders of the same results agree on which hashes survive, and on the
      seeders each one shows. */
  lemma ArrivalOrderKeepsSeeders(a: seq<Result>, b: seq<Result>, h: string)
    requires multiset(a) == multiset(b)
    ensures var x, y := Find(Merge(a), h), Find(Merge(b), h);
      (x.Some? <==> y.Some?) && (x.Some? ==> x.value.seeders == y.value.seeders)
  {
    MergeKeepsTheBest(a, h);
    MergeKeepsTheBest(b, h);
    BestIsUpperBound(a, b, h);
    BestIsUpperBound(b, a, h);
  }

  lemma BestIsUpperBound(a: seq<Result>, b: seq<Result>, h: string)
    requires multiset(a) == multiset(b)
    ensures Best(a, h).Some? ==> Best(b, h).Some? && Best(a, h).value.seeders <= Best(b, h).value.seeders
  {
    var k := BestIsFirstMaximum(a, h);
    var l := BestIsFirstMaximum(b, h);
    if k >= 0 {
      assert a[k] in multiset(b);
      var j :| 0 <= j < |b| && b[j] == a[k];
      assert b[j].infoHash == h;
    }
  }

  /** For this hash, results that report the most seeders differ in something else. */
  ghost predicate Tied(rs: seq<Result>, h: string) {
    exists r, q :: r in rs && q in rs && r != q && IsMaximal(rs, h, r) && IsMaximal(rs, h, q)
  }

  ghost predicate IsMaximal(rs: seq<Result>, h: string, r: Result) {
    r.infoHash == h && forall q :: q in rs && q.infoHash == h ==> q.seeders <= r.seeders
  }

  /** The surviving record itself is the same for every arrival order exactly when no two
      different results for the hash tie for the most seeders: a tie goes to the faster
      source. */
  lemma RecordIndependentIffUntied(rs: seq<Result>, h: string)
    requires h != ""
    ensures (forall a, b :: multiset(a) == multiset(rs) && multiset(b) == multiset(rs) ==>
              Find(Merge(a), h) == Find(Merge(b), h))
      <==> !Tied(rs, h)
  {
    if Tied(rs, h) {
      var r, q :| r in rs && q in rs && r != q && IsMaximal(rs, h, r) && IsMaximal(rs, h, q);
      var a := FrontRunnerWins(rs, h, r);
      var b := FrontRunnerWins(rs, h, q);
      assert Find(Merge(a), h) != Find(Merge(b), h);
    } else {
      forall a, b | multiset(a) == multiset(rs) && multiset(b) == multiset(rs)
        ensures Find(Merge(a), h) == Find(Merge(b), h)
      {
        UntiedAgree(rs, a, b, h);
      }
    }
  }

  lemma FrontRunnerWins(rs: seq<Result>, h: string, r: Result) returns (a: seq<Result>)
    requires h != "" && r in rs && IsMaximal(rs, h, r)
    ensures multiset(a) == multiset(rs) && Find(Merge(a), h) == Some(r)
  {
    var i :| 0 <= i < |rs| && rs[i] == r;
    a := [r] + rs[..i] + rs[i + 1..];
    assert rs == rs[..i] + [r] + rs[i + 1..];
    MergeKeepsTheBest(a, h);
    var k := BestIsFirstMaximum(a, h);
    assert a[0].infoHash == h;
    assert a[k] in multiset(a) && a[k] in rs;
  }

  lemma UntiedAgree(rs: seq<Result>, a: seq<Result>, b: seq<Result>, h: string)
    requires !Tied(rs, h) && h != "" && multiset(a) == multiset(rs) && multiset(b) == multiset(rs)
    ensures Find(Merge(a), h) == Find(Merge(b), h)
  {
    MergeKeepsTheBest(a, h);
    MergeKeepsTheBest(b, h);
    ArrivalOrderKeepsSeeders(a, b, h);
    var k := BestIsFirstMaximum(a, h);
    var l := BestIsFirstMaximum(b, h);
    if k >= 0 {
      MaximumIsMaximal(rs, a, h, k);
      MaximumIsMaximal(rs, b, h, l);
    }
  }

  lemma MaximumIsMaximal(rs: seq<Result>, a: seq<Result>, h: string, k: nat)
    requires multiset(a) == multiset(rs) && IsFirstMaximum(a, h, k)
    ensures a[k] in rs && IsMaximal(rs, h, a[k])
  {
    assert a[k] in multiset(rs);
    forall q | q in rs && q.infoHash == h ensures q.seeders <= a[k].seeders {
      assert q in multiset(a);
      var j :| 0 <= j < |a| && a[j] == q;
    }
  }
}
