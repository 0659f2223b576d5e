/** The running totals a cache sweep reports (cache.go). */
module Accounting {
  import opened CachePlan

  /** What is on disk: bytes and entries, of those the unfinished ones, and those no
      torrent accounts for. */
  datatype Totals = Totals(used: int, entries: int, partialBytes: int, orphanBytes: int, orphanCount: int)

  /** The cache panel's numbers. */
  datatype CacheStats = CacheStats(totals: Totals, budget: int, reserve: int, free: int, loaded: int,
                                   evictedBytes: int, evictedCount: int)

  /** The sum of a weight over the entries whose names are not in `gone`. */
  function Sum(entries: seq<Entry>, gone: set<string>, w: Entry -> int): int {
    if entries == [] then 0
    else
      var last := entries[|entries| - 1];
      Sum(entries[..|entries| - 1], gone, w) + (if last.name in gone then 0 else w(last))
  }

  ghost predicate UniqueEntries(entries: seq<Entry>) {
    forall i, j :: 0 <= i < j < |entries| ==> entries[i].name != entries[j].name
  }

  function Bytes(): Entry -> int { (e: Entry) => e.bytes }

  function One(): Entry -> int { (e: Entry) => 1 }

  function PartialBytes(): Entry -> int { (e: Entry) => if e.partial then e.bytes else 0 }

  /** Orphans are the entries no torrent accounts for. */
  function OrphanBytes(known: set<string>): Entry -> int { (e: Entry) => if e.name in known then 0 else e.bytes }

  function OrphanCount(known: set<string>): Entry -> int { (e: Entry) => if e.name in known then 0 else 1 }

  function OwnedCount(owned: set<string>): Entry -> int { (e: Entry) => if e.name in owned then 1 else 0 }

  lemma SumSkips(entries: seq<Entry>, gone: set<string>, w: Entry -> int, name: string)
    requires forall e :: e in entries ==> e.name != name
    ensures Sum(entries, gone + {name}, w) == Sum(entries, gone, w)
  {
    if entries != [] {
      assert entries[|entries| - 1] in entries;
      SumSkips(entries[..|entries| - 1], gone, w, name);
    }
  }

  /** Removing one more entry lowers the sum by that entry's weight, once. */
  lemma SumRemoves(entries: seq<Entry>, gone: set<string>, w: Entry -> int, e: Entry)
    requires UniqueEntries(entries) && e in entries && e.name !in gone
    ensures Sum(entries, gone + {e.name}, w) == Sum(entries, gone, w) - w(e)
  {
    var n := |entries| - 1;
    if entries[n] == e {
      SumSkips(entries[..n], gone, w, e.name);
    } else {
      assert e in entries[..n];
      SumRemoves(entries[..n], gone, w, e);
    }
  }

  /** The totals, entry by entry: bytes, number, unfinished bytes, and for those no torrent accounts for
      their bytes and number. What is gone is counted nowhere. */
  lemma TotalsAddUp(entries: seq<Entry>, e: Entry, gone: set<string>, known: set<string>)
    ensures var left, orphan := e.name !in gone, e.name !in known;
      && Sum(entries + [e], gone, Bytes()) == Sum(entries, gone, Bytes()) + (if left then e.bytes else 0)
      && Sum(entries + [e], gone, One()) == Sum(entries, gone, One()) + (if left then 1 else 0)
      && Sum(entries + [e], gone, PartialBytes())
         == Sum(entries, gone, PartialBytes()) + (if left && e.partial then e.bytes else 0)
      && Sum(entries + [e], gone, OrphanBytes(known))
         == Sum(entries, gone, OrphanBytes(known)) + (if left && orphan then e.bytes else 0)
      && Sum(entries + [e], gone, OrphanCount(known))
         == Sum(entries, gone, OrphanCount(known)) + (if left && orphan then 1 else 0)
      && Sum(entries + [e], gone, OwnedCount(known))
         == Sum(entries, gone, OwnedCount(known)) + (if left && !orphan then 1 else 0)
  {
    assert (entries + [e])[..|entries|] == entries;
  }

  /** What one sweep has reclaimed so far. */
  datatype Reclaimed = Reclaimed(bytes: int, count: int, orphans: int, orphanBytes: int, partialBytes: int)

  /** The bookkeeping for one removed entry. */
  function Reclaim(r: Reclaimed, e: Entry, known: set<string>): Reclaimed {
    Reclaimed(r.bytes + e.bytes, r.count + 1,
              if e.name in known then r.orphans else r.orphans + 1,
              if e.name in known then r.orphanBytes else r.orphanBytes + e.bytes,
              if e.partial then r.partialBytes + e.bytes else r.partialBytes)
  }

  /** Subtracting `r` from the totals of the scan gives the totals of the entries outside `gone`. */
  ghost predicate Accounts(entries: seq<Entry>, known: set<string>, gone: set<string>, r: Reclaimed) {
    && Sum(entries, gone, Bytes()) == Sum(entries, {}, Bytes()) - r.bytes
    && Sum(entries, gone, One()) == |entries| - r.count
    && Sum(entries, gone, PartialBytes()) == Sum(entries, {}, PartialBytes()) - r.partialBytes
    && Sum(entries, gone, OrphanBytes(known)) == Sum(entries, {}, OrphanBytes(known)) - r.orphanBytes
    && Sum(entries, gone, OrphanCount(known)) == Sum(entries, {}, OrphanCount(known)) - r.orphans
  }

  lemma SumOfOnes(entries: seq<Entry>)
    ensures Sum(entries, {}, One()) == |entries|
  {
  }

  lemma AccountsStart(entries: seq<Entry>, known: set<string>)
    ensures Accounts(entries, known, {}, Reclaimed(0, 0, 0, 0, 0))
  {
    SumOfOnes(entries);
  }

  lemma AccountsNext(entries: seq<Entry>, known: set<string>, gone: set<string>, r: Reclaimed, e: Entry)
    requires UniqueEntries(entries) && e in entries && e.name !in gone
    requires Accounts(entries, known, gone, r)
    ensures Accounts(entries, known, gone + {e.name}, Reclaim(r, e, known))
  {
    SumRemoves(entries, gone, Bytes(), e);
    SumRemoves(entries, gone, One(), e);
    SumRemoves(entries, gone, PartialBytes(), e);
    SumRemoves(entries, gone, OrphanBytes(known), e);
    SumRemoves(entries, gone, OrphanCount(known), e);
  }
}
