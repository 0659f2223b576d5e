/** Whole-word search in a title (indexers.go). */
module WholeWord {
  import opened Basics

  predicate IsAlnum(c: char) {
    'a' <= c <= 'z' || 'A' <= c <= 'Z' || '0' <= c <= '9'
  }

  predicate OccursAt(hay: string, needle: string, i: nat) {
    i + |needle| <= |hay| && hay[i..i + |needle|] == needle
  }

  /** The needle stands at `i` with no letter or digit on either side. */
  predicate StandsAt(hay: string, needle: string, i: nat) {
    && OccursAt(hay, needle, i)
    && (i == 0 || !IsAlnum(hay[i - 1]))
    && (i + |needle| == |hay| || !IsAlnum(hay[i + |needle|]))
  }

  /** No letter and no digit, by its code. */
  predicate Separates(c: char) {
    !(97 <= c as int <= 122) && !(65 <= c as int <= 90) && !(48 <= c as int <= 57)
  }

  /** The text is something that ends in a separator or is empty, the needle, and something that begins
      with a separator or is empty. */
  ghost predicate StandsBetween(hay: string, a: string, needle: string, b: string) {
    && hay == a + needle + b
    && (a == "" || Separates(a[|a| - 1])) && (b == "" || Separates(b[0]))
  }

  /** Standing at a place is standing between what is before it and what is behind it. */
  lemma StandsIffBetween(hay: string, needle: string)
    ensures (exists i: nat :: StandsAt(hay, needle, i)) <==> exists a, b :: StandsBetween(hay, a, needle, b)
  {
    if i: nat :| StandsAt(hay, needle, i) {
      CutAt(hay, needle, i);
    }
    if a, b :| StandsBetween(hay, a, needle, b) {
      JoinedAt(hay, a, needle, b);
    }
  }

  lemma JoinedAt(hay: string, a: string, needle: string, b: string)
    requires StandsBetween(hay, a, needle, b)
    ensures StandsAt(hay, needle, |a|)
  {
    assert hay[|a|..|a| + |needle|] == needle;
  }

  lemma CutAt(hay: string, needle: string, i: nat)
    requires StandsAt(hay, needle, i)
    ensures StandsBetween(hay, hay[..i], needle, hay[i + |needle|..])
  {
    assert hay == hay[..i] + hay[i..i + |needle|] + hay[i + |needle|..];
  }

  /** The first occurrence at or after `start`. */
  function Index(hay: string, needle: string, start: nat): (r: Option<nat>)
    requires start <= |hay|
    ensures r.Some? ==> start <= r.value && OccursAt(hay, needle, r.value)
    ensures forall i: nat :: start <= i && (r.Some? ==> i < r.value) ==> !OccursAt(hay, needle, i)
    decreases |hay| - start
  {
    if OccursAt(hay, needle, start) then Some(start)
    else if start == |hay| then None
    else Index(hay, needle, start + 1)
  }

  /** `containsWord`, on strings already in lower case. Occurrences may overlap, so the search goes
      on one past the last one, not behind it. */
  method ContainsWord(hay: string, needle: string) returns (r: bool)
    ensures r <==> needle != "" && exists i: nat :: StandsAt(hay, needle, i)
  {
    if needle == "" {
      return false;
    }
    var start := 0;
    while start + |needle| <= |hay|
      invariant start <= |hay|
      invariant forall i: nat :: i < start ==> !StandsAt(hay, needle, i)
    {
      var at := Index(hay, needle, start);
      if at.None? {
        return false;
      }
      var i := at.value;
      var before := i == 0 || !IsAlnum(hay[i - 1]);
      var after := i + |needle| == |hay| || !IsAlnum(hay[i + |needle|]);
      if before && after {
        assert StandsAt(hay, needle, i);
        return true;
      }
      start := i + 1;
    }
    return false;
  }
}
