/**
 * Configuration tables that the game validates once at start-up: the biofeedback
 * threshold list (AbstractBiofeedbackManager) and the per-speed spawner settings
 * (ProjectileSpawner). Both are sorted by a numeric key and then stripped of every
 * entry whose key equals that of the entry just before it.
 */
module Tables {

  /** `s` is in non-decreasing order of `key`. */
  ghost predicate SortedBy<T>(s: seq<T>, key: T -> int) {
    forall i, j :: 0 <= i < j < |s| ==> key(s[i]) <= key(s[j])
  }

  /** `s` is in strictly increasing order of `key`: at most one entry per key. */
  ghost predicate StrictlySortedBy<T>(s: seq<T>, key: T -> int) {
    forall i, j :: 0 <= i < j < |s| ==> key(s[i]) < key(s[j])
  }

  /** Some entry of `s` has key `k`. */
  ghost predicate HasKey<T>(s: seq<T>, key: T -> int, k: int) {
    exists i :: 0 <= i < |s| && key(s[i]) == k
  }

  /** `s` with `x` placed before the first entry whose key is not below `x`'s. */
  function Insert<T>(s: seq<T>, x: T, key: T -> int): (r: seq<T>)
    requires SortedBy(s, key)
    ensures SortedBy(r, key)
    ensures multiset(r) == multiset(s) + multiset{x}
    ensures |r| == |s| + 1 && (r[0] == x || (|s| > 0 && r[0] == s[0]))
  {
    if s == [] then [x]
    else if key(x) <= key(s[0]) then
      ConsSorted(x, s, key);
      [x] + s
    else
      var tail := s[1..];
      assert s == [s[0]] + tail;
      SortedTail(s, key);
      var rest := Insert(tail, x, key);
      assert key(s[0]) <= key(rest[0]);
      ConsSorted(s[0], rest, key);
      [s[0]] + rest
  }

  /** An entry not above the head of a sorted list can go in front of it. */
  lemma ConsSorted<T>(a: T, r: seq<T>, key: T -> int)
    requires SortedBy(r, key) && (|r| > 0 ==> key(a) <= key(r[0]))
    ensures SortedBy([a] + r, key)
  {
    var t := [a] + r;
    forall i, j | 0 <= i < j < |t|
      ensures key(t[i]) <= key(t[j])
    {
      assert t[j] == r[j - 1];
      if i == 0 {
        assert key(r[0]) <= key(r[j - 1]) || j == 1;
      } else {
        assert t[i] == r[i - 1];
      }
    }
  }

  /** The entries after the head of a sorted list are sorted. */
  lemma SortedTail<T>(s: seq<T>, key: T -> int)
    requires SortedBy(s, key) && |s| > 0
    ensures SortedBy(s[1..], key)
  {
    forall i, j | 0 <= i < j < |s| - 1
      ensures key(s[1..][i]) <= key(s[1..][j])
    {
      assert s[1..][i] == s[i + 1] && s[1..][j] == s[j + 1];
    }
  }

  /**
   * The sort of List.Sort with a key comparator: the result is ordered by key and is
   * a permutation of the input. List.Sort is not stable, so the order of entries with
   * equal keys is deliberately left open by this contract.
   */
  method SortByKey<T>(s: seq<T>, key: T -> int) returns (r: seq<T>)
    ensures SortedBy(r, key)
    ensures multiset(r) == multiset(s)
  {
    r := [];
    var i := 0;
    while i < |s|
      invariant 0 <= i <= |s|
      invariant SortedBy(r, key)
      invariant multiset(r) == multiset(s[..i])
    {
      assert s[..i + 1] == s[..i] + [s[i]];
      r := Insert(r, s[i], key);
      i := i + 1;
    }
    assert s[..i] == s;
  }

  /**
   * The entries of `s` from index `lo` on that head a run of equal keys: the first
   * entry of `s` always, any later one when its key differs from its predecessor's.
   */
  function KeptFrom<T>(s: seq<T>, key: T -> int, lo: nat): seq<T>
    decreases |s| - lo
  {
    if lo >= |s| then []
    else (if lo == 0 || key(s[lo]) != key(s[lo - 1]) then [s[lo]] else []) + KeptFrom(s, key, lo + 1)
  }

  /** What the backwards de-duplication loop leaves: the head of every run of equal keys. */
  function Dedup<T>(s: seq<T>, key: T -> int): seq<T> {
    KeptFrom(s, key, 0)
  }

  /**
   * The backwards loop shared by RemoveDuplicate and RemoveDuplicatesFrom: for i from
   * the last index down to 1, drop entry i when its key equals that of entry i - 1.
   */
  method RemoveAdjacentDuplicates<T>(s: seq<T>, key: T -> int) returns (r: seq<T>)
    ensures r == Dedup(s, key)
  {
    r := s;
    var i := |s| - 1;
    while i >= 1
      invariant -1 <= i < |s| || (s == [] && i == -1)
      invariant i + 1 <= |s|
      invariant r == s[..i + 1] + KeptFrom(s, key, i + 1)
    {
      assert r[i] == s[i] && r[i - 1] == s[i - 1];
      if key(r[i]) == key(r[i - 1]) {
        assert s[..i + 1] == s[..i] + [s[i]];
        r := r[..i] + r[i + 1..];
        assert r == s[..i] + KeptFrom(s, key, i + 1);
      } else {
        assert s[..i + 1] == s[..i] + [s[i]];
      }
      i := i - 1;
    }
    if |s| > 0 {
      assert s[..1] == [s[0]];
    }
  }

  /** Every entry left by KeptFrom comes from `s[lo..]`: de-duplication never adds entries. */
  lemma {:induction false} KeptFromSubMultiset<T>(s: seq<T>, key: T -> int, lo: nat)
    requires lo <= |s|
    ensures multiset(KeptFrom(s, key, lo)) <= multiset(s[lo..])
    decreases |s| - lo
  {
    if lo < |s| {
      KeptFromSubMultiset(s, key, lo + 1);
      var rest := KeptFrom(s, key, lo + 1);
      assert s[lo..] == [s[lo]] + s[lo + 1..];
      if lo == 0 || key(s[lo]) != key(s[lo - 1]) {
        assert KeptFrom(s, key, lo) == [s[lo]] + rest;
      } else {
        assert KeptFrom(s, key, lo) == rest;
      }
    }
  }

  /** KeptFrom keeps at most one entry per index from `lo` on. */
  lemma {:induction false} KeptFromShorter<T>(s: seq<T>, key: T -> int, lo: nat)
    requires lo <= |s|
    ensures |KeptFrom(s, key, lo)| <= |s| - lo
    decreases |s| - lo
  {
    if lo < |s| {
      KeptFromShorter(s, key, lo + 1);
    }
  }

  /**
   * On a sorted input the entries kept from `lo` on are strictly increasing, and all of
   * them lie strictly above the key of the entry before `lo`.
   */
  lemma {:induction false} KeptFromStrict<T>(s: seq<T>, key: T -> int, lo: nat)
    requires SortedBy(s, key)
    requires lo <= |s|
    ensures StrictlySortedBy(KeptFrom(s, key, lo), key)
    ensures lo >= 1 ==> forall y :: y in KeptFrom(s, key, lo) ==> key(s[lo - 1]) < key(y)
    decreases |s| - lo
  {
    if lo < |s| {
      KeptFromStrict(s, key, lo + 1);
      var tail := KeptFrom(s, key, lo + 1);
      assert forall k :: 0 <= k < |tail| ==> tail[k] in tail;
    }
  }

  /** An entry heading a run at index `j >= lo` is among those KeptFrom(s, key, lo) keeps. */
  lemma {:induction false} RunHeadKept<T>(s: seq<T>, key: T -> int, lo: nat, j: nat)
    requires lo <= j < |s|
    requires j == 0 || key(s[j]) != key(s[j - 1])
    ensures s[j] in KeptFrom(s, key, lo)
    decreases j - lo
  {
    if lo < j {
      RunHeadKept(s, key, lo + 1, j);
    }
  }

  /** De-duplication never adds entries: what it returns is a sub-multiset of its input. */
  lemma DedupNeverAdds<T>(s: seq<T>, key: T -> int)
    ensures multiset(Dedup(s, key)) <= multiset(s)
    ensures |Dedup(s, key)| <= |s|
  {
    KeptFromSubMultiset(s, key, 0);
    KeptFromShorter(s, key, 0);
    assert s[0..] == s;
  }

  /** De-duplication keeps at least one entry for every key present in its input. */
  lemma {:induction false} DedupKeepsEveryKey<T>(s: seq<T>, key: T -> int, i: nat)
    requires i < |s|
    ensures exists y :: y in Dedup(s, key) && key(y) == key(s[i])
    decreases i
  {
    if i == 0 || key(s[i]) != key(s[i - 1]) {
      RunHeadKept(s, key, 0, i);
      assert s[i] in Dedup(s, key);
    } else {
      DedupKeepsEveryKey(s, key, i - 1);
    }
  }

  /** On a sorted input, de-duplication leaves strictly increasing keys. */
  lemma DedupStrictlySorted<T>(s: seq<T>, key: T -> int)
    requires SortedBy(s, key)
    ensures StrictlySortedBy(Dedup(s, key), key)
  {
    KeptFromStrict(s, key, 0);
  }

  /** A table with no two adjacent equal keys is left as it is: validation is idempotent. */
  lemma {:induction false} DedupIdentity<T>(s: seq<T>, key: T -> int, lo: nat)
    requires lo <= |s|
    requires forall k :: 1 <= k < |s| ==> key(s[k]) != key(s[k - 1])
    ensures KeptFrom(s, key, lo) == s[lo..]
    decreases |s| - lo
  {
    if lo < |s| {
      DedupIdentity(s, key, lo + 1);
      assert s[lo..] == [s[lo]] + s[lo + 1..];
    }
  }

  /**
   * The whole validation: sorting by key, then dropping repeated keys. The result is
   * strictly increasing by key, holds only entries of the input, and still holds an
   * entry for every key of the input.
   */
  method SortAndDedup<T>(s: seq<T>, key: T -> int) returns (r: seq<T>)
    ensures StrictlySortedBy(r, key)
    ensures multiset(r) <= multiset(s)
    ensures forall i :: 0 <= i < |s| ==> HasKey(r, key, key(s[i]))
    ensures forall i :: 0 <= i < |r| ==> HasKey(s, key, key(r[i]))
  {
    var sorted := SortByKey(s, key);
    r := RemoveAdjacentDuplicates(sorted, key);
    DedupStrictlySorted(sorted, key);
    DedupNeverAdds(sorted, key);
    forall i | 0 <= i < |s|
      ensures HasKey(r, key, key(s[i]))
    {
      assert s[i] in multiset(sorted);
      var j :| 0 <= j < |sorted| && sorted[j] == s[i];
      DedupKeepsEveryKey(sorted, key, j);
      var y :| y in r && key(y) == key(s[i]);
      var k :| 0 <= k < |r| && r[k] == y;
    }
    forall i | 0 <= i < |r|
      ensures HasKey(s, key, key(r[i]))
    {
      assert r[i] in multiset(r);
      assert r[i] in multiset(s);
      var j :| 0 <= j < |s| && s[j] == r[i];
    }
  }
}
