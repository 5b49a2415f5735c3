/**
 * pandas' Series.value_counts() (missing cells dropped, most frequent first, order among equal
 * counts unspecified), its .sort_index() variant for integer keys, and Series.head(n).
 */
module Counting {
  import opened Wrappers

  /** One row of a value_counts() table: a value and the number of cells that hold it. */
  datatype Entry<K> = Entry(key: K, count: nat)

  /** The number of cells of vals that hold k. */
  function Occurrences<K(==,!new)>(vals: seq<Option<K>>, k: K): nat {
    if vals == [] then 0
    else Occurrences(vals[..|vals| - 1], k) + (if vals[|vals| - 1] == Some(k) then 1 else 0)
  }

  /** The number of cells of vals that are not missing. */
  function PresentCount<K>(vals: seq<Option<K>>): nat {
    if vals == [] then 0
    else PresentCount(vals[..|vals| - 1]) + (if vals[|vals| - 1].Some? then 1 else 0)
  }

  lemma {:induction false} OccurrencesPositive<K(!new)>(vals: seq<Option<K>>, k: K)
    ensures Occurrences(vals, k) > 0 <==> Some(k) in vals
  {
    if vals != [] {
      var n := |vals| - 1;
      assert vals == vals[..n] + [vals[n]];
      OccurrencesPositive(vals[..n], k);
    }
  }

  ghost predicate Distinct<K(!new)>(s: seq<K>) {
    forall i, j :: 0 <= i < j < |s| ==> s[i] != s[j]
  }

  /** The distinct non-missing values of vals, in order of first appearance. */
  function DistinctValues<K(==,!new)>(vals: seq<Option<K>>): (keys: seq<K>)
    ensures forall k :: k in keys <==> Some(k) in vals
    ensures Distinct(keys)
  {
    if vals == [] then []
    else
      var n := |vals| - 1;
      var rest := DistinctValues(vals[..n]);
      assert vals == vals[..n] + [vals[n]];
      if vals[n].Some? && vals[n].value !in rest then rest + [vals[n].value] else rest
  }

  function Tally<K(==,!new)>(keys: seq<K>, vals: seq<Option<K>>): seq<Entry<K>> {
    seq(|keys|, i requires 0 <= i < |keys| => Entry(keys[i], Occurrences(vals, keys[i])))
  }

  ghost function Keys<K(!new)>(r: seq<Entry<K>>): set<K> {
    set e | e in r :: e.key
  }

  ghost predicate DistinctKeys<K(!new)>(r: seq<Entry<K>>) {
    forall i, j :: 0 <= i < j < |r| ==> r[i].key != r[j].key
  }

  /**
   * r is a value_counts() table of vals in some order: one entry for each distinct value
   * present, none for a missing cell, each with its number of occurrences.
   */
  ghost predicate IsCountTable<K(!new)>(vals: seq<Option<K>>, r: seq<Entry<K>>) {
    && (forall k :: k in Keys(r) <==> Some(k) in vals)
    && DistinctKeys(r)
    && (forall e :: e in r ==> e.count == Occurrences(vals, e.key))
  }

  ghost predicate NonIncreasing<K>(r: seq<Entry<K>>) {
    forall i, j :: 0 <= i < j < |r| ==> r[i].count >= r[j].count
  }

  ghost predicate StrictlyAscending(r: seq<Entry<int>>) {
    forall i, j :: 0 <= i < j < |r| ==> r[i].key < r[j].key
  }

  // ------------------------------------------------------------ value_counts()

  function InsertByCount<K(==,!new)>(p: Entry<K>, t: seq<Entry<K>>): (r: seq<Entry<K>>)
    ensures multiset(r) == multiset(t) + multiset{p}
  {
    if t == [] || p.count >= t[0].count then [p] + t
    else
      assert t == [t[0]] + t[1..];
      [t[0]] + InsertByCount(p, t[1..])
  }

  lemma {:induction false} InsertByCountNonIncreasing<K(!new)>(p: Entry<K>, t: seq<Entry<K>>)
    requires NonIncreasing(t)
    ensures NonIncreasing(InsertByCount(p, t))
  {
    if t != [] && p.count < t[0].count {
      var rest := InsertByCount(p, t[1..]);
      InsertByCountNonIncreasing(p, t[1..]);
      assert InsertByCount(p, t) == [t[0]] + rest;
      forall e | e in rest ensures t[0].count >= e.count {
        assert e in multiset(rest);
        if e != p {
          assert e in multiset(t[1..]);
          var j :| 0 <= j < |t[1..]| && t[1..][j] == e;
          assert t[j + 1] == e;
        }
      }
    }
  }

  /** Sorted by count, largest first. */
  function SortByCount<K(==,!new)>(s: seq<Entry<K>>): (r: seq<Entry<K>>)
    ensures multiset(r) == multiset(s)
    ensures NonIncreasing(r)
  {
    if s == [] then []
    else
      assert s == [s[0]] + s[1..];
      InsertByCountNonIncreasing(s[0], SortByCount(s[1..]));
      InsertByCount(s[0], SortByCount(s[1..]))
  }

  /** A reordering of a table with distinct keys keeps its keys distinct. */
  lemma PermutationKeepsKeysDistinct<K(!new)>(s: seq<Entry<K>>, r: seq<Entry<K>>)
    requires multiset(r) == multiset(s) && DistinctKeys(s)
    ensures DistinctKeys(r) && Keys(r) == Keys(s)
  {
    assert forall e :: e in r <==> e in s by {
      forall e ensures e in r <==> e in s {
        assert e in r <==> e in multiset(r);
        assert e in s <==> e in multiset(s);
      }
    }
    forall i, j | 0 <= i < j < |r| ensures r[i].key != r[j].key {
      if r[i].key == r[j].key {
        assert r[i] in s && r[j] in s;
        var i', j' :| 0 <= i' < |s| && 0 <= j' < |s| && s[i'] == r[i] && s[j'] == r[j];
        assert i' == j';
        assert r[i] == r[j];
        MultiplicityOfTwo(r, i, j);
        MultiplicityOfDistinct(s, r[i]);
        assert false;
      }
    }
  }

  lemma {:induction false} MultiplicityOfTwo<T>(r: seq<T>, i: nat, j: nat)
    requires i < j < |r| && r[i] == r[j]
    ensures multiset(r)[r[i]] >= 2
  {
    var x := r[i];
    assert r == r[..i] + [x] + r[i + 1..j] + [x] + r[j + 1..];
  }

  lemma {:induction false} MultiplicityOfDistinct<K(!new)>(s: seq<Entry<K>>, e: Entry<K>)
    requires DistinctKeys(s)
    ensures multiset(s)[e] <= 1
  {
    if s != [] {
      assert s == [s[0]] + s[1..];
      MultiplicityOfDistinct(s[1..], e);
      if s[0] == e {
        assert e !in s[1..];
      }
    }
  }

  lemma TallyIsCountTable<K(!new)>(vals: seq<Option<K>>)
    ensures IsCountTable(vals, Tally(DistinctValues(vals), vals))
  {
    var keys := DistinctValues(vals);
    var t := Tally(keys, vals);
    forall k ensures k in Keys(t) <==> Some(k) in vals {
      if k in keys {
        var i :| 0 <= i < |keys| && keys[i] == k;
        assert t[i] in t;
      }
    }
  }

  /** pandas' Series.value_counts(): the distinct present values with their counts, most frequent first. */
  function ValueCounts<K(==,!new)>(vals: seq<Option<K>>): (r: seq<Entry<K>>)
    ensures IsCountTable(vals, r)
    ensures NonIncreasing(r)
    ensures |r| == |DistinctValues(vals)|
  {
    var t := Tally(DistinctValues(vals), vals);
    TallyIsCountTable(vals);
    var r := SortByCount(t);
    assert |r| == |multiset(r)| == |multiset(t)| == |t|;
    PermutationKeepsKeysDistinct(t, r);
    assert forall e :: e in r ==> e in t by {
      forall e | e in r ensures e in t {
        assert e in multiset(r);
      }
    }
    r
  }

  // ------------------------------------------------------------ value_counts().sort_index()

  function InsertByKey(p: Entry<int>, t: seq<Entry<int>>): (r: seq<Entry<int>>)
    ensures multiset(r) == multiset(t) + multiset{p}
  {
    if t == [] || p.key <= t[0].key then [p] + t
    else
      assert t == [t[0]] + t[1..];
      [t[0]] + InsertByKey(p, t[1..])
  }

  lemma {:induction false} InsertByKeyAscending(p: Entry<int>, t: seq<Entry<int>>)
    requires StrictlyAscending(t) && p.key !in Keys(t)
    ensures StrictlyAscending(InsertByKey(p, t))
  {
    if t == [] || p.key <= t[0].key {
      if t != [] {
        assert t[0] in t;
      }
    } else {
      var rest := InsertByKey(p, t[1..]);
      assert InsertByKey(p, t) == [t[0]] + rest;
      KeysOfTail(t);
      InsertByKeyAscending(p, t[1..]);
      forall e | e in rest ensures t[0].key < e.key {
        InsertedFrom(p, t[1..], e);
        if e != p {
          var j :| 0 <= j < |t[1..]| && t[1..][j] == e;
          assert t[j + 1] == e;
        }
      }
    }
  }

  lemma KeysOfTail<K(!new)>(t: seq<Entry<K>>)
    requires t != []
    ensures Keys(t[1..]) <= Keys(t)
  {
    forall e | e in t[1..] ensures e in t {
      var j :| 0 <= j < |t[1..]| && t[1..][j] == e;
      assert t[j + 1] == e;
    }
  }

  lemma InsertedFrom(p: Entry<int>, t: seq<Entry<int>>, e: Entry<int>)
    requires e in InsertByKey(p, t)
    ensures e == p || e in t
  {
    assert e in multiset(InsertByKey(p, t));
  }

  /** Sorted by key, smallest first. */
  function SortByKey(s: seq<Entry<int>>): (r: seq<Entry<int>>)
    requires DistinctKeys(s)
    ensures multiset(r) == multiset(s)
    ensures StrictlyAscending(r)
  {
    if s == [] then []
    else
      assert s == [s[0]] + s[1..];
      var rest := SortByKey(s[1..]);
      PermutationKeepsKeysDistinct(s[1..], rest);
      InsertByKeyAscending(s[0], rest);
      InsertByKey(s[0], rest)
  }

  /** pandas' Series.value_counts().sort_index(): the distinct present values with their counts, by ascending value. */
  function CountsByKey(vals: seq<Option<int>>): (r: seq<Entry<int>>)
    ensures IsCountTable(vals, r)
    ensures StrictlyAscending(r)
  {
    var t := Tally(DistinctValues(vals), vals);
    TallyIsCountTable(vals);
    var r := SortByKey(t);
    PermutationKeepsKeysDistinct(t, r);
    assert forall e :: e in r ==> e in t by {
      forall e | e in r ensures e in t {
        assert e in multiset(r);
      }
    }
    r
  }

  // ------------------------------------------------------------ head(n)

  /** How many rows pandas' head(n) keeps of len: the first n, or for negative n all but the last -n. */
  function HeadLength(len: nat, n: int): (k: nat)
    ensures k <= len
    ensures n >= 0 ==> k == if n < len then n else len
    ensures n < 0 ==> k == if len + n > 0 then len + n else 0
  {
    if n >= 0 then (if n < len then n else len)
    else (if len + n > 0 then len + n else 0)
  }

  /** pandas' head(n): a prefix of s, of the length HeadLength gives. */
  function Head<T>(s: seq<T>, n: int): (r: seq<T>)
    ensures |r| == HeadLength(|s|, n) && r <= s
  {
    s[..HeadLength(|s|, n)]
  }

  // ------------------------------------------------------------ totals

  function SumCounts<K>(r: seq<Entry<K>>): nat {
    if r == [] then 0 else r[0].count + SumCounts(r[1..])
  }

  /** vals with every cell holding k made missing. */
  function Erase<K(==,!new)>(vals: seq<Option<K>>, k: K): (r: seq<Option<K>>)
    ensures |r| == |vals|
  {
    if vals == [] then []
    else
      var n := |vals| - 1;
      Erase(vals[..n], k) + [if vals[n] == Some(k) then None else vals[n]]
  }

  lemma {:induction false} EraseCounts<K(!new)>(vals: seq<Option<K>>, k: K)
    ensures forall k' :: k' != k ==> Occurrences(Erase(vals, k), k') == Occurrences(vals, k')
    ensures PresentCount(Erase(vals, k)) + Occurrences(vals, k) == PresentCount(vals)
    ensures forall k' :: Some(k') in Erase(vals, k) <==> Some(k') in vals && k' != k
  {
    if vals != [] {
      var n := |vals| - 1;
      var e := Erase(vals, k);
      EraseCounts(vals[..n], k);
      assert e[..n] == Erase(vals[..n], k);
      assert vals == vals[..n] + [vals[n]];
      assert e == e[..n] + [e[n]];
    }
  }

  lemma {:induction false} NothingPresent<K(!new)>(vals: seq<Option<K>>)
    requires forall k :: Some(k) !in vals
    ensures PresentCount(vals) == 0
  {
    if vals != [] {
      var n := |vals| - 1;
      assert vals[n] in vals;
      assert forall x :: x in vals[..n] ==> x in vals;
      NothingPresent(vals[..n]);
    }
  }

  /** The counts of a value_counts() table add up to the number of non-missing cells. */
  lemma {:induction false} CountTableSum<K(!new)>(vals: seq<Option<K>>, r: seq<Entry<K>>)
    requires IsCountTable(vals, r)
    ensures SumCounts(r) == PresentCount(vals)
    decreases |r|
  {
    if r == [] {
      assert forall k :: Some(k) !in vals by {
        forall k ensures Some(k) !in vals {
          assert k !in Keys(r);
        }
      }
      NothingPresent(vals);
    } else {
      var k := r[0].key;
      var erased := Erase(vals, k);
      EraseCounts(vals, k);
      assert r[0] in r;
      assert IsCountTable(erased, r[1..]) by {
        forall k' ensures k' in Keys(r[1..]) <==> Some(k') in erased {
          if k' in Keys(r[1..]) {
            var e :| e in r[1..] && e.key == k';
            var j :| 0 <= j < |r[1..]| && r[1..][j] == e;
            assert r[j + 1] == e;
            assert e in r;
          }
        }
        forall e | e in r[1..] ensures e.count == Occurrences(erased, e.key) {
          var j :| 0 <= j < |r[1..]| && r[1..][j] == e;
          assert r[j + 1] == e;
          assert e in r;
        }
      }
      CountTableSum(erased, r[1..]);
    }
  }

  /** head(n) of a value_counts() table keeps the n most frequent values: none left out is more frequent. */
  lemma TopEntriesAreTop<K(!new)>(vals: seq<Option<K>>, r: seq<Entry<K>>, n: int, e: Entry<K>, k: K)
    requires IsCountTable(vals, r) && NonIncreasing(r)
    requires e in Head(r, n) && Some(k) in vals && k !in Keys(Head(r, n))
    ensures e.count >= Occurrences(vals, k)
  {
    var h := Head(r, n);
    var i :| 0 <= i < |h| && h[i] == e;
    assert k in Keys(r);
    var f :| f in r && f.key == k;
    var j :| 0 <= j < |r| && r[j] == f;
    assert r[i] == e;
  }

  /**
   * value_counts().head(n): each entry counts one present value, no value twice, most frequent
   * first; there are min(n, number of distinct present values) entries when n is not negative,
   * and for negative n all but the last -n.
   */
  function TopCounts<K(==,!new)>(vals: seq<Option<K>>, n: int): (r: seq<Entry<K>>)
    ensures forall e :: e in r ==> Some(e.key) in vals && e.count == Occurrences(vals, e.key)
    ensures DistinctKeys(r) && NonIncreasing(r)
    ensures |r| == HeadLength(|DistinctValues(vals)|, n)
  {
    var all := ValueCounts(vals);
    var r := Head(all, n);
    assert forall e :: e in r ==> e in all;
    r
  }

  /** No value left out of value_counts().head(n) is more frequent than any value it shows. */
  lemma TopCountsAreTop<K(!new)>(vals: seq<Option<K>>, n: int, k: K)
    requires Some(k) in vals && k !in Keys(TopCounts(vals, n))
    ensures forall e :: e in TopCounts(vals, n) ==> e.count >= Occurrences(vals, k)
  {
    forall e | e in TopCounts(vals, n) ensures e.count >= Occurrences(vals, k) {
      TopEntriesAreTop(vals, ValueCounts(vals), n, e, k);
    }
  }
}
