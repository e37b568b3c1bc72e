/**
  The selections behind the report queries: a stable descending sort by a
  numeric key (what `sort((a, b) => key(b) - key(a))` produces), the first N
  of it (`slice(0, n)`), the entries of a map in an unspecified order
  (`Object.entries`), and the first index of the maximum
  (`indexOf(Math.max(...))`).
*/
module Ranking {

  function Min(a: int, b: int): int
  {
    if a <= b then a else b
  }

  /** Non-increasing by key. */
  ghost predicate SortedDesc<T>(s: seq<T>, key: T -> int)
  {
    forall i, j :: 0 <= i < j < |s| ==> key(s[i]) >= key(s[j])
  }

  /** No element occurs twice. */
  ghost predicate Distinct<T>(s: seq<T>)
  {
    forall i, j :: 0 <= i < j < |s| ==> s[i] != s[j]
  }

  /** Puts `x` after every element with a larger key and before the others,
      so that among equal keys the earlier input element stays first. */
  function Insert<T>(x: T, s: seq<T>, key: T -> int): (r: seq<T>)
    requires SortedDesc(s, key)
    ensures SortedDesc(r, key)
    ensures multiset(r) == multiset(s) + multiset{x}
    ensures Distinct(s) && x !in s ==> Distinct(r)
  {
    if s == [] || key(s[0]) <= key(x) then
      assert Distinct(s) && x !in s ==> Distinct([x] + s) by {
        if Distinct(s) && x !in s {
          DistinctCons(x, s);
        }
      }
      [x] + s
    else
      var rest := Insert(x, s[1..], key);
      assert s == [s[0]] + s[1..];
      InsertStep(x, s, rest, key);
      [s[0]] + rest
  }

  lemma DistinctCons<T>(x: T, s: seq<T>)
    requires Distinct(s) && x !in s
    ensures Distinct([x] + s)
  {
    forall i, j | 0 <= i < j < |[x] + s| ensures ([x] + s)[i] != ([x] + s)[j] {
      if i == 0 {
        assert ([x] + s)[j] == s[j - 1];
      } else {
        assert ([x] + s)[i] == s[i - 1] && ([x] + s)[j] == s[j - 1];
      }
    }
  }

  /** The recursive case of Insert: the head of `s` stays in front. */
  lemma InsertStep<T>(x: T, s: seq<T>, rest: seq<T>, key: T -> int)
    requires s != [] && key(s[0]) > key(x) && SortedDesc(s, key)
    requires SortedDesc(rest, key) && multiset(rest) == multiset(s[1..]) + multiset{x}
    requires Distinct(s[1..]) && x !in s[1..] ==> Distinct(rest)
    ensures SortedDesc([s[0]] + rest, key)
    ensures multiset([s[0]] + rest) == multiset(s) + multiset{x}
    ensures Distinct(s) && x !in s ==> Distinct([s[0]] + rest)
  {
    assert s == [s[0]] + s[1..];
    forall y | y in rest ensures y == x || y in s[1..] {
      assert y in multiset(rest);
    }
    InsertStepSorted(x, s, rest, key);
    if Distinct(s) && x !in s {
      assert forall m :: 0 <= m < |s[1..]| ==> s[1..][m] == s[m + 1];
      assert s[0] !in s[1..];
      DistinctCons(s[0], rest);
    }
  }

  lemma InsertStepSorted<T>(x: T, s: seq<T>, rest: seq<T>, key: T -> int)
    requires s != [] && key(s[0]) > key(x) && SortedDesc(s, key) && SortedDesc(rest, key)
    requires forall y :: y in rest ==> y == x || y in s[1..]
    ensures SortedDesc([s[0]] + rest, key)
  {
    forall y | y in rest ensures key(y) <= key(s[0]) {
      if y != x {
        var m :| 0 <= m < |s[1..]| && s[1..][m] == y;
        assert s[m + 1] == y;
      }
    }
    var r := [s[0]] + rest;
    forall i, j | 0 <= i < j < |r| ensures key(r[i]) >= key(r[j]) {
      assert r[j] == rest[j - 1];
      assert r[j] in rest;
      if i > 0 {
        assert r[i] == rest[i - 1];
      }
    }
  }

  /** The stable insertion sort, descending by key. */
  function SortDesc<T>(s: seq<T>, key: T -> int): (r: seq<T>)
    ensures SortedDesc(r, key)
    ensures multiset(r) == multiset(s)
    ensures Distinct(s) ==> Distinct(r)
  {
    if s == [] then []
    else
      assert s == [s[0]] + s[1..];
      var rest := SortDesc(s[1..], key);
      assert s[0] !in s[1..] ==> s[0] !in multiset(rest);
      Insert(s[0], rest, key)
  }

  /** `r` is a choice of the `n` elements of `s` with the largest keys, in
      non-increasing order: as many as `s` has, up to `n`; none invented; and
      no element left out (a left-out copy of a chosen value included) has a
      larger key than one chosen. */
  ghost predicate IsTop<T>(r: seq<T>, s: seq<T>, key: T -> int, n: nat)
  {
    && |r| == Min(n, |s|)
    && SortedDesc(r, key)
    && multiset(r) <= multiset(s)
    && (Distinct(s) ==> Distinct(r))
    && (forall x, i :: x in multiset(s) - multiset(r) && 0 <= i < |r| ==> key(x) <= key(r[i]))
  }

  /** `sort(...).slice(0, n)`. */
  function TopN<T>(s: seq<T>, key: T -> int, n: nat): (r: seq<T>)
    ensures IsTop(r, s, key, n)
  {
    var t := SortDesc(s, key);
    PrefixIsTop(s, t, key, n);
    t[..Min(n, |t|)]
  }

  /** The first `n` of a sorted permutation of `s` are a top-`n` choice from `s`. */
  lemma PrefixIsTop<T>(s: seq<T>, t: seq<T>, key: T -> int, n: nat)
    requires SortedDesc(t, key) && multiset(t) == multiset(s)
    requires Distinct(s) ==> Distinct(t)
    ensures IsTop(t[..Min(n, |t|)], s, key, n)
  {
    var k := Min(n, |t|);
    var r := t[..k];
    assert |t| == |multiset(t)| == |multiset(s)| == |s|;
    assert forall i :: 0 <= i < k ==> r[i] == t[i];
    assert multiset(r) <= multiset(t) by {
      assert t == r + t[k..];
    }
    TopOfSorted(s, t, key, k);
  }

  lemma TopOfSorted<T>(s: seq<T>, t: seq<T>, key: T -> int, k: nat)
    requires SortedDesc(t, key) && multiset(t) == multiset(s) && k <= |t|
    ensures forall x, i :: x in multiset(s) - multiset(t[..k]) && 0 <= i < k ==> key(x) <= key(t[..k][i])
  {
    assert t == t[..k] + t[k..];
    assert multiset(s) - multiset(t[..k]) == multiset(t[k..]);
    forall x, i | x in multiset(s) - multiset(t[..k]) && 0 <= i < k
      ensures key(x) <= key(t[..k][i])
    {
      var j :| 0 <= j < |t[k..]| && t[k..][j] == x;
      assert t[k + j] == x;
      assert t[..k][i] == t[i];
    }
  }

  /** The entries of a map, each key once, in some order the model leaves open. */
  ghost function Entries<K, V>(m: map<K, V>): (es: seq<(K, V)>)
    ensures IsEntries(es, m)
    decreases |m|
  {
    if m == map[] then []
    else
      var k :| k in m;
      var rest := Entries(m - {k});
      EntriesCons(m, k, rest);
      [(k, m[k])] + rest
  }

  /** `es` lists every entry of `m` exactly once. */
  ghost predicate IsEntries<K, V>(es: seq<(K, V)>, m: map<K, V>)
  {
    && |es| == |m|
    && (forall i :: 0 <= i < |es| ==> es[i].0 in m && es[i].1 == m[es[i].0])
    && (forall k :: k in m ==> (k, m[k]) in es)
    && (forall i, j :: 0 <= i < j < |es| ==> es[i].0 != es[j].0)
  }

  lemma EntriesCons<K, V>(m: map<K, V>, k: K, rest: seq<(K, V)>)
    requires k in m && IsEntries(rest, m - {k})
    ensures IsEntries([(k, m[k])] + rest, m)
  {
    var es := [(k, m[k])] + rest;
    forall i | 0 <= i < |es| ensures es[i].0 in m && es[i].1 == m[es[i].0] {
      if i > 0 {
        assert es[i] == rest[i - 1];
      }
    }
    EntriesConsCovers(m, k, rest);
    EntriesConsDistinct(k, m[k], rest);
    assert (m - {k}).Keys == m.Keys - {k};
    assert |m - {k}| == |m| - 1;
  }

  lemma EntriesConsDistinct<K, V>(k: K, v: V, rest: seq<(K, V)>)
    requires forall i :: 0 <= i < |rest| ==> rest[i].0 != k
    requires forall i, j :: 0 <= i < j < |rest| ==> rest[i].0 != rest[j].0
    ensures forall i, j :: 0 <= i < j < |[(k, v)] + rest| ==> ([(k, v)] + rest)[i].0 != ([(k, v)] + rest)[j].0
  {
    var es := [(k, v)] + rest;
    forall i, j | 0 <= i < j < |es| ensures es[i].0 != es[j].0 {
      assert es[j] == rest[j - 1];
      if i > 0 {
        assert es[i] == rest[i - 1];
      }
    }
  }

  lemma EntriesConsCovers<K, V>(m: map<K, V>, k: K, rest: seq<(K, V)>)
    requires k in m
    requires forall k' :: k' in m - {k} ==> (k', (m - {k})[k']) in rest
    ensures forall k' :: k' in m ==> (k', m[k']) in [(k, m[k])] + rest
  {
    forall k' | k' in m ensures (k', m[k']) in [(k, m[k])] + rest {
      if k' != k {
        assert k' in m - {k};
      }
    }
  }

  /** A reordering of the entries that repeats none of them lists the entries too. */
  lemma EntriesPermutation<K, V>(es: seq<(K, V)>, t: seq<(K, V)>, m: map<K, V>)
    requires IsEntries(es, m) && multiset(t) == multiset(es) && Distinct(t)
    ensures IsEntries(t, m)
  {
    assert |t| == |multiset(t)| == |multiset(es)| == |es|;
    forall i | 0 <= i < |t| ensures t[i].0 in m && t[i].1 == m[t[i].0] {
      assert t[i] in multiset(t);
      assert t[i] in es;
    }
    forall k | k in m ensures (k, m[k]) in t {
      assert (k, m[k]) in multiset(es);
    }
  }

  /** Distinct keys make distinct entries. */
  lemma EntriesDistinct<K, V>(m: map<K, V>)
    ensures Distinct(Entries(m))
  {
  }

  /** `r` lists `n` entries of `m` with the largest keys, without repeating a
      map key: the same bounds and order as IsTop, said of the map itself. */
  ghost predicate IsTopOfMap<K, V>(r: seq<(K, V)>, m: map<K, V>, key: ((K, V)) -> int, n: nat)
  {
    && |r| == Min(n, |m|)
    && SortedDesc(r, key)
    && (forall i :: 0 <= i < |r| ==> r[i].0 in m && r[i].1 == m[r[i].0])
    && (forall i, j :: 0 <= i < j < |r| ==> r[i].0 != r[j].0)
    && (forall k, i :: k in m && (k, m[k]) !in r && 0 <= i < |r| ==> key((k, m[k])) <= key(r[i]))
  }

  /** `Object.entries(m).sort(...).slice(0, n)`. */
  ghost function TopOfMap<K, V>(m: map<K, V>, key: ((K, V)) -> int, n: nat): (r: seq<(K, V)>)
    ensures IsTopOfMap(r, m, key, n)
  {
    var r := TopN(Entries(m), key, n);
    TopOfEntries(m, key, n, r);
    r
  }

  lemma TopOfEntries<K, V>(m: map<K, V>, key: ((K, V)) -> int, n: nat, r: seq<(K, V)>)
    requires IsTop(r, Entries(m), key, n)
    ensures IsTopOfMap(r, m, key, n)
  {
    var es := Entries(m);
    EntriesDistinct(m);
    forall i | 0 <= i < |r| ensures r[i] in es {
      assert r[i] in multiset(r);
    }
    forall i | 0 <= i < |r| ensures r[i].0 in m && r[i].1 == m[r[i].0] {
      assert r[i] in es;
    }
    forall i, j | 0 <= i < j < |r| ensures r[i].0 != r[j].0 {
      assert r[i] in es && r[j] in es;
    }
    forall k, i | k in m && (k, m[k]) !in r && 0 <= i < |r| ensures key((k, m[k])) <= key(r[i]) {
      assert (k, m[k]) in es;
      assert (k, m[k]) in multiset(es) - multiset(r);
    }
  }

  /** The largest element of a non-empty sequence (`Math.max(...s)`). */
  function MaxOf(s: seq<nat>): (m: nat)
    requires s != []
    ensures m in s
    ensures forall i :: 0 <= i < |s| ==> s[i] <= m
  {
    if |s| == 1 then s[0]
    else
      var m := MaxOf(s[1..]);
      assert forall i :: 1 <= i < |s| ==> s[i] == s[1..][i - 1];
      if s[0] >= m then s[0] else m
  }

  /** `s.indexOf(x)`: the first index holding `x`, or -1. */
  function IndexOf(s: seq<nat>, x: nat): (r: int)
    ensures -1 <= r < |s|
    ensures r == -1 <==> x !in s
    ensures r >= 0 ==> s[r] == x && forall i :: 0 <= i < r ==> s[i] != x
  {
    if s == [] then -1
    else if s[0] == x then 0
    else
      var r := IndexOf(s[1..], x);
      assert forall i :: 1 <= i < |s| ==> s[i] == s[1..][i - 1];
      if r == -1 then -1 else r + 1
  }

  /** `s.indexOf(Math.max(...s))`: the first index of a maximum; -1 for the
      empty sequence, where `Math.max()` is minus infinity. */
  function FirstMaxIndex(s: seq<nat>): (r: int)
    ensures s == [] <==> r == -1
    ensures s != [] ==> 0 <= r < |s|
    ensures s != [] ==> forall i :: 0 <= i < |s| ==> s[i] <= s[r]
    ensures s != [] ==> forall i :: 0 <= i < r ==> s[i] < s[r]
  {
    if s == [] then -1 else IndexOf(s, MaxOf(s))
  }
}
