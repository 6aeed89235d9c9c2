/**
 * The handful of table operations the dashboard chains together: boolean
 * row selection, dropping rows whose key is missing, `groupby(...).size()`,
 * `sort_values("Count", ascending=False)`, `head(n)` and the row with the
 * largest count.
 */
module Tables {
  import opened Wrappers

  // ---------------------------------------------------------------------
  // Row selection
  // ---------------------------------------------------------------------

  /** `a` is `b` with some rows removed and the rest in their original order. */
  predicate IsSubsequence<T(==)>(a: seq<T>, b: seq<T>)
  {
    if a == [] then true
    else if b == [] then false
    else if a[0] == b[0] then IsSubsequence(a[1..], b[1..])
    else IsSubsequence(a, b[1..])
  }

  /** `d[mask]`: the rows satisfying `p`, in table order. */
  function Keep<T(!new)>(s: seq<T>, p: T -> bool): (r: seq<T>)
    ensures |r| <= |s|
    ensures forall x :: x in r <==> x in s && p(x)
    ensures forall x :: multiset(r)[x] == if p(x) then multiset(s)[x] else 0
  {
    if s == [] then []
    else
      assert s == [s[0]] + s[1..];
      (if p(s[0]) then [s[0]] else []) + Keep(s[1..], p)
  }

  lemma {:induction false} KeepIsSubsequence<T(!new)>(s: seq<T>, p: T -> bool)
    ensures IsSubsequence(Keep(s, p), s)
  {
    if s != [] {
      KeepIsSubsequence(s[1..], p);
      var k := Keep(s[1..], p);
      if p(s[0]) {
        assert Keep(s, p) == [s[0]] + k;
        assert ([s[0]] + k)[1..] == k;
      } else {
        assert Keep(s, p) == k;
        SubsequenceOfTail(k, s);
      }
    }
  }

  /** A subsequence of `s[1..]` is a subsequence of `s`. */
  lemma {:induction false} SubsequenceOfTail<T>(a: seq<T>, s: seq<T>)
    requires s != [] && IsSubsequence(a, s[1..])
    ensures IsSubsequence(a, s)
    decreases |s|, 0
  {
    if a != [] && a[0] == s[0] {
      SubsequenceDropHead(a, s[1..]);
    }
  }

  /** Dropping the first row of a subsequence leaves a subsequence. */
  lemma {:induction false} SubsequenceDropHead<T>(a: seq<T>, b: seq<T>)
    requires a != [] && IsSubsequence(a, b)
    ensures IsSubsequence(a[1..], b)
    decreases |b|, 1
  {
    if a[0] == b[0] {
      SubsequenceOfTail(a[1..], b);
    } else {
      SubsequenceDropHead(a, b[1..]);
      SubsequenceOfTail(a[1..], b);
    }
  }

  lemma {:induction false} KeepAll<T(!new)>(s: seq<T>, p: T -> bool)
    requires forall x :: x in s ==> p(x)
    ensures Keep(s, p) == s
  {
    if s != [] {
      KeepAll(s[1..], p);
    }
  }

  /** Selections with masks that agree on every row are the same selection. */
  lemma {:induction false} KeepCongruent<T(!new)>(s: seq<T>, p: T -> bool, q: T -> bool)
    requires forall x :: x in s ==> p(x) == q(x)
    ensures Keep(s, p) == Keep(s, q)
  {
    if s != [] {
      KeepCongruent(s[1..], p, q);
    }
  }

  /** Selecting twice with the same mask selects nothing more. */
  lemma KeepIdempotent<T(!new)>(s: seq<T>, p: T -> bool)
    ensures Keep(Keep(s, p), p) == Keep(s, p)
  {
    KeepAll(Keep(s, p), p);
  }

  /** The mask `p & q`. */
  function Both<T>(p: T -> bool, q: T -> bool): T -> bool
  {
    x => p(x) && q(x)
  }

  /** Two selections in a row are one selection with both conditions. */
  lemma {:induction false} KeepKeep<T(!new)>(s: seq<T>, p: T -> bool, q: T -> bool)
    ensures Keep(Keep(s, p), q) == Keep(s, Both(p, q))
  {
    if s != [] {
      KeepKeep(s[1..], p, q);
      var k := Keep(s[1..], p);
      if p(s[0]) {
        assert Keep(s, p) == [s[0]] + k;
        assert ([s[0]] + k)[1..] == k;
      } else {
        assert Keep(s, p) == k;
      }
    }
  }

  // ---------------------------------------------------------------------
  // The non-missing values of a derived key column
  // ---------------------------------------------------------------------

  /**
   * `key` applied to every row, rows where it is missing dropped: the key
   * column after `dropna`, and the rows `groupby` keeps (it drops missing
   * keys).
   */
  function Present<R(!new), K(!new)>(rows: seq<R>, key: R -> Option<K>): (ks: seq<K>)
    ensures |ks| <= |rows|
    ensures forall k :: k in ks <==> exists r :: r in rows && key(r) == Some(k)
  {
    if rows == [] then []
    else
      var rest := Present(rows[1..], key);
      assert forall r :: r in rows[1..] ==> r in rows;
      (if key(rows[0]).Some? then [key(rows[0]).value] else []) + rest
  }

  /** One key value per row whose key is present: `dropna` keeps exactly those rows. */
  lemma {:induction false} PresentLength<R(!new), K(!new)>(rows: seq<R>, key: R -> Option<K>)
    ensures |Present(rows, key)| == |Keep(rows, HasKey(key))|
  {
    if rows != [] {
      PresentLength(rows[1..], key);
    }
  }

  /** Each key value occurs once per row that has it: `dropna` neither merges nor repeats rows. */
  lemma {:induction false} PresentCounts<R(!new), K(!new)>(rows: seq<R>, key: R -> Option<K>, k: K)
    ensures multiset(Present(rows, key))[k] == |Keep(rows, KeyIs(key, k))|
  {
    if rows != [] {
      PresentCounts(rows[1..], key, k);
      var head := if key(rows[0]).Some? then [key(rows[0]).value] else [];
      assert Present(rows, key) == head + Present(rows[1..], key);
      assert multiset(Present(rows, key))[k] == multiset(head)[k] + multiset(Present(rows[1..], key))[k];
    }
  }

  /** The mask of rows whose key is present (`notna`). */
  function HasKey<R, K>(key: R -> Option<K>): R -> bool
  {
    r => key(r).Some?
  }

  /** The mask of rows whose key is `k`. */
  function KeyIs<R, K(==)>(key: R -> Option<K>, k: K): R -> bool
  {
    r => key(r) == Some(k)
  }

  // ---------------------------------------------------------------------
  // groupby(...).size()
  // ---------------------------------------------------------------------

  /** One row of a `groupby(...).size()` result. */
  datatype Group<K> = Group(key: K, count: nat)

  /** The count recorded for `k`, or 0 when `k` has no row. */
  function Lookup<K(==)>(groups: seq<Group<K>>, k: K): nat
  {
    if groups == [] then 0
    else if groups[0].key == k then groups[0].count
    else Lookup(groups[1..], k)
  }

  function SumCounts<K>(groups: seq<Group<K>>): nat
  {
    if groups == [] then 0 else groups[0].count + SumCounts(groups[1..])
  }

  ghost predicate DistinctKeys<K>(groups: seq<Group<K>>)
  {
    forall i, j :: 0 <= i < j < |groups| ==> groups[i].key != groups[j].key
  }

  /**
   * `groups` is the group-size table of the key column `keys`: one row per
   * distinct key, holding how many times it occurs.
   */
  ghost predicate IsCountTable<K>(groups: seq<Group<K>>, keys: seq<K>)
  {
    && DistinctKeys(groups)
    && (forall g :: g in groups ==> 1 <= g.count == multiset(keys)[g.key])
    && (forall k :: k in keys ==> exists g :: g in groups && g.key == k)
    && SumCounts(groups) == |keys|
  }

  lemma {:induction false} LookupFound<K>(groups: seq<Group<K>>, i: nat)
    requires DistinctKeys(groups) && i < |groups|
    ensures Lookup(groups, groups[i].key) == groups[i].count
  {
    if i > 0 {
      assert groups[0].key != groups[i].key;
      LookupFound(groups[1..], i - 1);
    }
  }

  /** Counting one more occurrence of `k`. */
  function Bump<K(==)>(groups: seq<Group<K>>, k: K): (r: seq<Group<K>>)
    requires DistinctKeys(groups)
    ensures DistinctKeys(r)
    ensures forall g :: g in r ==> g.key == k || g in groups
    ensures forall g :: g in r ==> g.count == Lookup(groups, g.key) + (if g.key == k then 1 else 0)
    ensures forall g :: g in groups && g.key != k ==> g in r
    ensures exists g :: g in r && g.key == k
    ensures SumCounts(r) == SumCounts(groups) + 1
  {
    if groups == [] then [Group(k, 1)]
    else if groups[0].key == k then
      forall i | 0 < i < |groups| ensures Lookup(groups, groups[i].key) == groups[i].count {
        LookupFound(groups, i);
      }
      [Group(k, groups[0].count + 1)] + groups[1..]
    else
      var rest := Bump(groups[1..], k);
      assert forall g :: g in rest ==> g.key != groups[0].key by {
        forall g | g in rest ensures g.key != groups[0].key {
          if g in groups[1..] {
            var j :| 0 <= j < |groups[1..]| && groups[1..][j] == g;
            assert groups[j + 1] == g;
          }
        }
      }
      [groups[0]] + rest
  }

  /** `groupby(key).size()` over the (already null-free) key column. */
  function Tally<K(==)>(keys: seq<K>): (r: seq<Group<K>>)
    ensures IsCountTable(r, keys)
  {
    if keys == [] then []
    else
      var rest := Tally(keys[1..]);
      var r := Bump(rest, keys[0]);
      assert keys == [keys[0]] + keys[1..];
      forall g | g in r ensures 1 <= g.count == multiset(keys)[g.key] {
        CountTableLookup(rest, keys[1..], g.key);
      }
      r
  }

  lemma {:induction false} LookupAbsent<K>(groups: seq<Group<K>>, k: K)
    requires forall g :: g in groups ==> g.key != k
    ensures Lookup(groups, k) == 0
  {
    if groups != [] {
      LookupAbsent(groups[1..], k);
    }
  }

  /** In a group-size table, `Lookup` reads off exactly the number of occurrences. */
  lemma {:induction false} CountTableLookup<K>(groups: seq<Group<K>>, keys: seq<K>, k: K)
    requires IsCountTable(groups, keys)
    ensures Lookup(groups, k) == multiset(keys)[k]
  {
    if k in keys {
      var g :| g in groups && g.key == k;
      var i :| 0 <= i < |groups| && groups[i] == g;
      LookupFound(groups, i);
    } else {
      LookupAbsent(groups, k);
    }
  }

  lemma {:induction false} DistinctKeysCardinality<K>(groups: seq<Group<K>>)
    requires DistinctKeys(groups)
    ensures |set g | g in groups :: g.key| == |groups|
  {
    if groups != [] {
      var rest := groups[1..];
      DistinctKeysCardinality(rest);
      assert (set g | g in groups :: g.key) == {groups[0].key} + (set g | g in rest :: g.key) by {
        assert forall g :: g in groups <==> g == groups[0] || g in rest;
      }
      forall g | g in rest ensures g.key != groups[0].key {
        var j :| 0 <= j < |rest| && rest[j] == g;
        assert groups[j + 1] == g;
      }
    }
  }

  /** A group-size table has one row per distinct key: `nunique` is its length. */
  lemma CountTableSize<K>(groups: seq<Group<K>>, keys: seq<K>)
    requires IsCountTable(groups, keys)
    ensures |groups| == |set k | k in keys|
  {
    DistinctKeysCardinality(groups);
    assert (set g | g in groups :: g.key) == (set k | k in keys) by {
      forall g | g in groups ensures g.key in keys {
        assert g.key in multiset(keys);
      }
    }
  }

  // ---------------------------------------------------------------------
  // sort_values("Count", ascending=False) and head(n)
  // ---------------------------------------------------------------------

  ghost predicate CountsNonIncreasing<K>(groups: seq<Group<K>>)
  {
    forall i, j :: 0 <= i < j < |groups| ==> groups[i].count >= groups[j].count
  }

  function InsertByCount<K>(g: Group<K>, s: seq<Group<K>>): (r: seq<Group<K>>)
    requires CountsNonIncreasing(s)
    ensures CountsNonIncreasing(r)
    ensures multiset(r) == multiset(s) + multiset{g}
  {
    if s == [] || g.count >= s[0].count then [g] + s
    else
      var rest := InsertByCount(g, s[1..]);
      assert s == [s[0]] + s[1..];
      assert forall h :: h in rest ==> h.count <= s[0].count by {
        forall h | h in rest ensures h.count <= s[0].count {
          assert h in multiset(rest);
          if h != g {
            assert h in s[1..];
          }
        }
      }
      [s[0]] + rest
  }

  /** The rows reordered by count, largest first (tie order left open). */
  function SortByCountDesc<K>(groups: seq<Group<K>>): (r: seq<Group<K>>)
    ensures CountsNonIncreasing(r)
    ensures multiset(r) == multiset(groups)
  {
    if groups == [] then []
    else
      assert groups == [groups[0]] + groups[1..];
      InsertByCount(groups[0], SortByCountDesc(groups[1..]))
  }

  /** Sorting a group-size table by count leaves a group-size table of the same column. */
  lemma SortedCountTable<K>(groups: seq<Group<K>>, keys: seq<K>)
    requires IsCountTable(groups, keys)
    ensures IsCountTable(SortByCountDesc(groups), keys)
  {
    var r := SortByCountDesc(groups);
    forall i, j | 0 <= i < j < |r| ensures r[i].key != r[j].key {
      // r holds no row twice, and rows with equal keys carry equal counts
      TwiceInTable(groups, r[i]);
      NoRowTwice(r, i, j);
      assert r[i] in multiset(groups) && r[j] in multiset(groups);
    }
    forall g | g in r ensures g in groups {
      assert g in multiset(r);
    }
    forall g | g in groups ensures g in r {
      assert g in multiset(groups);
    }
    SortSum(groups);
  }

  lemma NoRowTwice<T>(r: seq<T>, i: nat, j: nat)
    requires i < j < |r| && multiset(r)[r[i]] <= 1
    ensures r[i] != r[j]
  {
    assert r == r[..j] + r[j..];
    assert multiset(r) == multiset(r[..j]) + multiset(r[j..]);
    assert r[i] in multiset(r[..j]) && r[j] in multiset(r[j..]);
  }

  lemma {:induction false} TwiceInTable<K>(groups: seq<Group<K>>, g: Group<K>)
    requires DistinctKeys(groups)
    ensures multiset(groups)[g] <= 1
  {
    if groups != [] {
      assert groups == [groups[0]] + groups[1..];
      TwiceInTable(groups[1..], g);
      forall j | 0 <= j < |groups[1..]| ensures groups[1..][j] != groups[0] {
        assert groups[j + 1].key != groups[0].key;
      }
    }
  }

  lemma {:induction false} InsertSum<K>(g: Group<K>, s: seq<Group<K>>)
    requires CountsNonIncreasing(s)
    ensures SumCounts(InsertByCount(g, s)) == g.count + SumCounts(s)
  {
    if s != [] && g.count < s[0].count {
      InsertSum(g, s[1..]);
    }
  }

  lemma {:induction false} SortSum<K>(groups: seq<Group<K>>)
    ensures SumCounts(SortByCountDesc(groups)) == SumCounts(groups)
  {
    if groups != [] {
      SortSum(groups[1..]);
      InsertSum(groups[0], SortByCountDesc(groups[1..]));
    }
  }

  /**
   * `sort_values("Count", ascending=False).head(n)`: at most `n` rows taken
   * from `groups`, largest counts first, and no row left out beats a row kept.
   */
  function TopByCount<K>(groups: seq<Group<K>>, n: nat): (r: seq<Group<K>>)
    ensures |r| == if |groups| < n then |groups| else n
    ensures CountsNonIncreasing(r)
    ensures multiset(r) <= multiset(groups)
    ensures |groups| <= n ==> multiset(r) == multiset(groups)
    ensures forall g, h :: g in multiset(groups) - multiset(r) && h in r ==> g.count <= h.count
  {
    var sorted := SortByCountDesc(groups);
    var k := if |sorted| < n then |sorted| else n;
    TakeSorted(sorted, k);
    assert k == |sorted| ==> sorted[..k] == sorted;
    sorted[..k]
  }

  /** The top `n` rows of a group-size table are observed keys with their true counts. */
  lemma TopObserved<K>(groups: seq<Group<K>>, keys: seq<K>, n: nat)
    requires IsCountTable(groups, keys)
    ensures forall g :: g in TopByCount(groups, n) ==> 1 <= g.count == multiset(keys)[g.key]
  {
    var r := TopByCount(groups, n);
    forall g | g in r ensures 1 <= g.count == multiset(keys)[g.key] {
      assert g in multiset(groups);
    }
  }

  /** A key left out of the top `n` occurs no more often than any key kept. */
  lemma TopLeftOut<K>(groups: seq<Group<K>>, keys: seq<K>, n: nat, k: K)
    requires IsCountTable(groups, keys) && k in keys
    ensures (forall g :: g in TopByCount(groups, n) ==> g.key != k) ==>
              forall h :: h in TopByCount(groups, n) ==> multiset(keys)[k] <= h.count
  {
    var r := TopByCount(groups, n);
    if forall g :: g in r ==> g.key != k {
      var g :| g in groups && g.key == k;
      assert g !in multiset(r);
      assert g in multiset(groups) - multiset(r);
    }
  }

  /** The top `n` rows of a table with distinct keys have distinct keys. */
  lemma TopDistinct<K>(groups: seq<Group<K>>, n: nat)
    requires DistinctKeys(groups)
    ensures DistinctKeys(TopByCount(groups, n))
  {
    var r := TopByCount(groups, n);
    forall i, j | 0 <= i < j < |r| ensures r[i].key != r[j].key {
      TwiceInTable(groups, r[i]);
      assert multiset(r)[r[i]] <= multiset(groups)[r[i]];
      NoRowTwice(r, i, j);
      assert r[i] in multiset(groups) && r[j] in multiset(groups);
      var a :| 0 <= a < |groups| && groups[a] == r[i];
      var b :| 0 <= b < |groups| && groups[b] == r[j];
    }
  }

  /** With at most `n` distinct keys, the top `n` hold every key. */
  lemma TopCoversFew<K>(groups: seq<Group<K>>, keys: seq<K>, n: nat, k: K)
    requires IsCountTable(groups, keys) && |groups| <= n && k in keys
    ensures exists g :: g in TopByCount(groups, n) && g.key == k
  {
    var g :| g in groups && g.key == k;
    assert g in multiset(TopByCount(groups, n));
  }

  /** Cutting a list sorted by count: every row after the cut is no larger than any row before it. */
  lemma TakeSorted<K>(sorted: seq<Group<K>>, k: nat)
    requires CountsNonIncreasing(sorted) && k <= |sorted|
    ensures CountsNonIncreasing(sorted[..k])
    ensures multiset(sorted[..k]) <= multiset(sorted)
    ensures multiset(sorted) - multiset(sorted[..k]) == multiset(sorted[k..])
    ensures forall g, h :: g in multiset(sorted[k..]) && h in sorted[..k] ==> g.count <= h.count
  {
    assert sorted == sorted[..k] + sorted[k..];
    assert multiset(sorted) == multiset(sorted[..k]) + multiset(sorted[k..]);
    forall g, h | g in multiset(sorted[k..]) && h in sorted[..k] ensures g.count <= h.count {
      var i :| 0 <= i < |sorted[k..]| && sorted[k..][i] == g;
      var j :| 0 <= j < k && sorted[..k][j] == h;
      assert sorted[k + i] == g && sorted[j] == h;
    }
  }

  // ---------------------------------------------------------------------
  // The largest group
  // ---------------------------------------------------------------------

  /** A row with the largest count (the first such row). */
  function MaxGroup<K>(groups: seq<Group<K>>): (g: Group<K>)
    requires groups != []
    ensures g in groups
    ensures forall h :: h in groups ==> h.count <= g.count
  {
    if |groups| == 1 then groups[0]
    else
      var best := MaxGroup(groups[1..]);
      assert forall h :: h in groups ==> h == groups[0] || h in groups[1..];
      if groups[0].count >= best.count then groups[0] else best
  }
}
