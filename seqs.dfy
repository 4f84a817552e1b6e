/** Generic sequence operations that the trade handler and the leaderboard
    rely on: JavaScript's `Array.prototype.findIndex`, a filtering query, the
    `splice(i, 1)` removal, and the stable comparator sort of ECMAScript 2019
    specialised to "descending by a numeric key". */
module Seqs {

  /** Index of the first element satisfying `pred`, or -1 when none does. */
  function FindIndex<T>(s: seq<T>, pred: T -> bool): (r: int)
    ensures -1 <= r < |s|
    ensures r == -1 <==> forall i :: 0 <= i < |s| ==> !pred(s[i])
    ensures 0 <= r ==> pred(s[r]) && forall i :: 0 <= i < r ==> !pred(s[i])
  {
    if |s| == 0 then -1
    else if pred(s[0]) then 0
    else
      var k := FindIndex(s[1..], pred);
      if k == -1 then -1 else k + 1
  }

  /** The elements of `s` that satisfy `pred`, in their original order. */
  function Filter<T>(s: seq<T>, pred: T -> bool): (r: seq<T>)
    ensures |r| <= |s|
    ensures forall i :: 0 <= i < |r| ==> pred(r[i])
    ensures forall i :: 0 <= i < |r| ==> r[i] in s
    ensures forall i :: 0 <= i < |s| && pred(s[i]) ==> s[i] in r
  {
    if |s| == 0 then []
    else if pred(s[0]) then [s[0]] + Filter(s[1..], pred)
    else Filter(s[1..], pred)
  }

  /** Filtering keeps every element that satisfies `pred` exactly as many times
      as it occurs, and never adds an occurrence. */
  lemma {:induction false} FilterCounts<T>(s: seq<T>, pred: T -> bool)
    ensures multiset(Filter(s, pred)) <= multiset(s)
    ensures forall i :: 0 <= i < |s| && pred(s[i]) ==>
      multiset(Filter(s, pred))[s[i]] == multiset(s)[s[i]]
  {
    if |s| > 0 {
      var rest := Filter(s[1..], pred);
      FilterCounts(s[1..], pred);
      assert s == [s[0]] + s[1..];
      assert forall i :: 1 <= i < |s| ==> s[i] == s[1..][i - 1];
      if pred(s[0]) {
        assert Filter(s, pred) == [s[0]] + rest;
        if s[0] in s[1..] {
          var m :| 0 <= m < |s[1..]| && s[1..][m] == s[0];
        }
      } else {
        assert Filter(s, pred) == rest;
      }
    }
  }

  /** `s` with the element at `i` removed, the rest kept in order. */
  function RemoveAt<T>(s: seq<T>, i: nat): (r: seq<T>)
    requires i < |s|
    ensures |r| == |s| - 1
    ensures forall j :: 0 <= j < i ==> r[j] == s[j]
    ensures forall j :: i <= j < |r| ==> r[j] == s[j + 1]
    ensures multiset(r) + multiset{s[i]} == multiset(s)
  {
    assert s == s[..i] + [s[i]] + s[i + 1..];
    s[..i] + s[i + 1..]
  }

  /** Descending order by `key`, as a comparator returning key(b) - key(a) asks. */
  predicate IsSortedDesc<T>(s: seq<T>, key: T -> real) {
    forall i, j :: 0 <= i < j < |s| ==> key(s[i]) >= key(s[j])
  }

  /** The predicate "has key `k`", used to state stability. */
  function HasKey<T>(key: T -> real, k: real): T -> bool {
    x => key(x) == k
  }

  /** Inserts `x` into a descending sequence in front of every element whose
      key is not larger, so that `x` precedes the elements it ties with. */
  function Insert<T>(x: T, t: seq<T>, key: T -> real): (r: seq<T>)
    ensures |r| == |t| + 1
    ensures multiset(r) == multiset(t) + multiset{x}
  {
    if |t| == 0 || key(t[0]) <= key(x) then [x] + t
    else
      assert t == [t[0]] + t[1..];
      [t[0]] + Insert(x, t[1..], key)
  }

  /** One step of the sort: the head is inserted into the sorted tail. */
  lemma SortCons<T>(x: T, t: seq<T>, key: T -> real)
    ensures SortDesc([x] + t, key) == Insert(x, SortDesc(t, key), key)
  {
    assert ([x] + t)[1..] == t;
  }

  /** An element whose key is not below the head's goes in front. */
  lemma InsertInFront<T>(x: T, t: seq<T>, key: T -> real)
    requires |t| == 0 || key(t[0]) <= key(x)
    ensures Insert(x, t, key) == [x] + t
  {
  }

  /** An element whose key is below the head's goes behind it. */
  lemma InsertBehind<T>(x: T, y: T, t: seq<T>, key: T -> real)
    requires key(y) > key(x)
    ensures Insert(x, [y] + t, key) == [y] + Insert(x, t, key)
  {
    assert ([y] + t)[1..] == t;
  }

  /** Inserting into a descending sequence keeps it descending. */
  lemma {:induction false} InsertSorted<T>(x: T, t: seq<T>, key: T -> real)
    requires IsSortedDesc(t, key)
    ensures IsSortedDesc(Insert(x, t, key), key)
  {
    if |t| > 0 && key(t[0]) > key(x) {
      var rest := Insert(x, t[1..], key);
      InsertSorted(x, t[1..], key);
      assert t == [t[0]] + t[1..];
      assert forall y :: y in rest ==> key(y) <= key(t[0]) by {
        forall y | y in rest ensures key(y) <= key(t[0]) {
          assert y in multiset(rest);
          if y != x {
            assert y in multiset(t[1..]);
            var m :| 0 <= m < |t[1..]| && t[1..][m] == y;
            assert t[m + 1] == y;
          }
        }
      }
      assert forall j :: 0 <= j < |rest| ==> rest[j] in rest;
    }
  }

  /** Stable descending sort by `key`: insertion sort from the back, so that an
      earlier element is inserted in front of later elements with an equal key. */
  function SortDesc<T>(s: seq<T>, key: T -> real): (r: seq<T>)
    ensures |r| == |s|
    ensures multiset(r) == multiset(s)
    ensures IsSortedDesc(r, key)
  {
    if |s| == 0 then []
    else
      assert s == [s[0]] + s[1..];
      InsertSorted(s[0], SortDesc(s[1..], key), key);
      Insert(s[0], SortDesc(s[1..], key), key)
  }

  /** Sorting the filtered elements keeps exactly the elements that satisfy
      the predicate. */
  lemma SortedFilterMembers<T>(s: seq<T>, pred: T -> bool, key: T -> real)
    ensures var r := SortDesc(Filter(s, pred), key);
      && (forall i :: 0 <= i < |r| ==> pred(r[i]))
      && (forall i :: 0 <= i < |s| && pred(s[i]) ==> s[i] in r)
  {
    var f := Filter(s, pred);
    var r := SortDesc(f, key);
    forall i | 0 <= i < |r| ensures pred(r[i]) {
      assert r[i] in multiset(f);
      var j :| 0 <= j < |f| && f[j] == r[i];
    }
    forall i | 0 <= i < |s| && pred(s[i]) ensures s[i] in r {
      assert s[i] in multiset(f);
    }
  }

  lemma {:induction false} FilterCons<T>(x: T, t: seq<T>, pred: T -> bool)
    ensures Filter([x] + t, pred) == if pred(x) then [x] + Filter(t, pred) else Filter(t, pred)
  {
    assert ([x] + t)[1..] == t;
  }

  /** Inserting `x` keeps, for every key value `k`, the elements with key `k`
      in the order "x first, then those of `t`". */
  lemma {:induction false} InsertStable<T>(x: T, t: seq<T>, key: T -> real, k: real)
    requires IsSortedDesc(t, key)
    ensures Filter(Insert(x, t, key), HasKey(key, k)) == Filter([x] + t, HasKey(key, k))
  {
    var p := HasKey(key, k);
    if |t| > 0 && key(t[0]) > key(x) {
      var rest := Insert(x, t[1..], key);
      assert Insert(x, t, key) == [t[0]] + rest;
      assert IsSortedDesc(t[1..], key);
      InsertStable(x, t[1..], key, k);
      assert t == [t[0]] + t[1..];
      FilterCons(t[0], rest, p);
      FilterCons(x, t[1..], p);
      FilterCons(x, t, p);
      FilterCons(t[0], t[1..], p);
      // x and t[0] have different keys, so at most one of them is kept
      assert !(p(x) && p(t[0]));
    }
  }

  /** Stability: for every key value `k`, the elements with key `k` appear in
      the output in exactly the order they have in the input. */
  lemma {:induction false} SortDescStable<T>(s: seq<T>, key: T -> real, k: real)
    ensures Filter(SortDesc(s, key), HasKey(key, k)) == Filter(s, HasKey(key, k))
  {
    if |s| > 0 {
      var p := HasKey(key, k);
      SortDescStable(s[1..], key, k);
      InsertStable(s[0], SortDesc(s[1..], key), key, k);
      FilterCons(s[0], SortDesc(s[1..], key), p);
      FilterCons(s[0], s[1..], p);
      assert s == [s[0]] + s[1..];
    }
  }
}
