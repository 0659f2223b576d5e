/** Dropping blanks and repeats from the query list, in place (relevance.go). */
module Dedupe {

  /** White-space trimming and case folding. */
  datatype Folding = Folding(trim: string -> string, lower: string -> string)

  predicate HasKey(f: Folding, out: seq<string>, key: string) {
    exists k :: 0 <= k < |out| && f.lower(out[k]) == key
  }

  function Deduped(f: Folding, items: seq<string>): seq<string> {
    if items == [] then []
    else
      var out, s := Deduped(f, items[..|items| - 1]), f.trim(items[|items| - 1]);
      if s == "" || HasKey(f, out, f.lower(s)) then out else out + [s]
  }

  lemma DedupedNext(f: Folding, items: seq<string>, i: nat)
    requires i < |items|
    ensures var out, s := Deduped(f, items[..i]), f.trim(items[i]);
      Deduped(f, items[..i + 1]) == if s == "" || HasKey(f, out, f.lower(s)) then out else out + [s]
  {
    assert items[..i + 1][..i] == items[..i];
  }

  lemma HasKeyNext(f: Folding, out: seq<string>, s: string)
    ensures forall k :: HasKey(f, out + [s], k) <==> HasKey(f, out, k) || k == f.lower(s)
  {
    var more := out + [s];
    forall k ensures HasKey(f, more, k) <==> HasKey(f, out, k) || k == f.lower(s) {
      assert more[|out|] == s;
      if i :| 0 <= i < |out| && f.lower(out[i]) == k {
        assert more[i] == out[i];
      }
    }
  }

  /** The kept strings are written over the front of the caller's own array; from there on the
      array is as it was. */
  method DedupeStrings(f: Folding, a: array<string>) returns (m: nat)
    modifies a
    ensures m <= a.Length
    ensures a[..m] == Deduped(f, old(a[..]))
    ensures forall k :: m <= k < a.Length ==> a[k] == old(a[k])
  {
    ghost var was := a[..];
    var seen: set<string> := {};
    m := 0;
    for i := 0 to a.Length
      invariant m <= i && a[..m] == Deduped(f, was[..i])
      invariant forall k :: m <= k < a.Length ==> a[k] == was[k]
      invariant forall key :: key in seen <==> HasKey(f, a[..m], key)
    {
      DedupedNext(f, was, i);
      var s := f.trim(a[i]);
      if s == "" || f.lower(s) in seen {
        continue;
      }
      HasKeyNext(f, a[..m], s);
      ghost var next := a[..m] + [s];
      seen := seen + {f.lower(s)};
      a[m] := s;
      assert a[..m + 1] == next;
      m := m + 1;
    }
    assert was[..a.Length] == was;
  }

  /** Some item, not blank, reads as this key. */
  predicate Occurs(f: Folding, items: seq<string>, key: string) {
    exists j :: 0 <= j < |items| && f.trim(items[j]) != "" && f.lower(f.trim(items[j])) == key
  }

  /** The items that are the first of their key, in order. */
  function Firsts(f: Folding, items: seq<string>): seq<string> {
    if items == [] then []
    else
      var init, s := items[..|items| - 1], f.trim(items[|items| - 1]);
      Firsts(f, init) + (if s != "" && !Occurs(f, init, f.lower(s)) then [s] else [])
  }

  predicate NoRepeats(f: Folding, s: seq<string>) {
    && (forall k :: 0 <= k < |s| ==> s[k] != "")
    && (forall k, l :: 0 <= k < l < |s| ==> f.lower(s[k]) != f.lower(s[l]))
  }

  lemma OccursNext(f: Folding, items: seq<string>, key: string)
    requires items != []
    ensures var n := |items| - 1;
      Occurs(f, items, key) <==>
        Occurs(f, items[..n], key) || (f.trim(items[n]) != "" && f.lower(f.trim(items[n])) == key)
  {
    var n := |items| - 1;
    if j :| 0 <= j < n && f.trim(items[..n][j]) != "" && f.lower(f.trim(items[..n][j])) == key {
      assert items[j] == items[..n][j];
    }
    if j :| 0 <= j < n && f.trim(items[j]) != "" && f.lower(f.trim(items[j])) == key {
      assert items[j] == items[..n][j];
    }
  }

  /** Comparing with the strings kept so far is as good as comparing with all the items so far. */
  lemma {:induction false} DedupedHas(f: Folding, items: seq<string>, key: string)
    ensures HasKey(f, Deduped(f, items), key) <==> Occurs(f, items, key)
  {
    if items != [] {
      var n := |items| - 1;
      DedupedHas(f, items[..n], key);
      OccursNext(f, items, key);
      HasKeyNext(f, Deduped(f, items[..n]), f.trim(items[n]));
    }
  }

  /** What the result means: the items that are not blank and the first of their kind, in order; so
      nothing is blank, and no two differ only in case. */
  lemma {:induction false} DedupedKeepsFirsts(f: Folding, items: seq<string>)
    ensures Deduped(f, items) == Firsts(f, items) && NoRepeats(f, Deduped(f, items))
  {
    if items != [] {
      var n := |items| - 1;
      var out, s := Deduped(f, items[..n]), f.trim(items[n]);
      DedupedKeepsFirsts(f, items[..n]);
      DedupedHas(f, items[..n], f.lower(s));
      if s != "" && !HasKey(f, out, f.lower(s)) {
        assert forall k :: 0 <= k < |out| ==> (out + [s])[k] == out[k] && f.lower(out[k]) != f.lower(s);
      }
    }
  }

  lemma {:induction false} DedupedIsTrimmed(f: Folding, items: seq<string>)
    requires forall s :: f.trim(f.trim(s)) == f.trim(s)
    ensures forall s :: s in Deduped(f, items) ==> f.trim(s) == s
  {
    if items != [] {
      DedupedIsTrimmed(f, items[..|items| - 1]);
    }
  }

  /** Queries added behind a list leave the front of the result as it was, so the queries the small
      indexers run do not change. */
  lemma {:induction false} FrontStays(f: Folding, a: seq<string>, b: seq<string>)
    ensures Deduped(f, a) <= Deduped(f, a + b)
  {
    if b == [] {
      assert a + b == a;
    } else {
      var n := |b| - 1;
      FrontStays(f, a, b[..n]);
      assert (a + b)[..|a + b| - 1] == a + b[..n];
    }
  }

  lemma {:induction false} NothingToDrop(f: Folding, s: seq<string>)
    requires NoRepeats(f, s) && forall k :: 0 <= k < |s| ==> f.trim(s[k]) == s[k]
    ensures Deduped(f, s) == s
  {
    if s != [] {
      var n := |s| - 1;
      NothingToDrop(f, s[..n]);
      assert s == s[..n] + [s[n]];
    }
  }

  /** A second pass changes nothing. */
  lemma DedupeTwice(f: Folding, items: seq<string>)
    requires forall s :: f.trim(f.trim(s)) == f.trim(s)
    ensures Deduped(f, Deduped(f, items)) == Deduped(f, items)
  {
    DedupedKeepsFirsts(f, items);
    DedupedIsTrimmed(f, items);
    NothingToDrop(f, Deduped(f, items));
  }
}
