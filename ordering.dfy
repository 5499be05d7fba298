/** The list operations of Python that the analyser relies on: the stable descending sort
    `sorted(xs, key=f, reverse=True)`, the slice `xs[:n]`, and assignment `d[k] = v` on a
    dictionary, which Python keeps in insertion order (so a dictionary is modelled here by
    the sequence of its items). */
module Ordering {

  /** Every key is at least as large as every later key. */
  ghost predicate SortedDesc<T>(s: seq<T>, key: T -> real)
  {
    forall i, j :: 0 <= i < j < |s| ==> key(s[i]) >= key(s[j])
  }

  /** `f` strictly increases along `s`. */
  ghost predicate IncreasingBy<T>(s: seq<T>, f: T -> int)
  {
    forall i, j :: 0 <= i < j < |s| ==> f(s[i]) < f(s[j])
  }

  /** The elements of `s` whose key is `k`, in their order in `s`. */
  function Ties<T>(s: seq<T>, key: T -> real, k: real): seq<T>
  {
    if s == [] then []
    else (if key(s[0]) == k then [s[0]] else []) + Ties(s[1..], key, k)
  }

  lemma {:induction false} TiesAppend<T>(a: seq<T>, b: seq<T>, key: T -> real, k: real)
    ensures Ties(a + b, key, k) == Ties(a, key, k) + Ties(b, key, k)
  {
    if a == [] {
      assert a + b == b;
    } else {
      var h := if key(a[0]) == k then [a[0]] else [];
      assert (a + b)[0] == a[0];
      assert (a + b)[1..] == a[1..] + b;
      assert Ties(a + b, key, k) == h + Ties(a[1..] + b, key, k);
      TiesAppend(a[1..], b, key, k);
      assert h + (Ties(a[1..], key, k) + Ties(b, key, k)) == (h + Ties(a[1..], key, k)) + Ties(b, key, k);
    }
  }

  lemma {:induction false} TiesMembers<T>(s: seq<T>, key: T -> real, k: real)
    ensures forall y :: y in Ties(s, key, k) ==> y in s && key(y) == k
  {
    if s != [] {
      TiesMembers(s[1..], key, k);
    }
  }

  /** Taking the elements of one key keeps any order that `s` has. */
  lemma {:induction false} TiesIncreasing<T>(s: seq<T>, key: T -> real, k: real, f: T -> int)
    requires IncreasingBy(s, f)
    ensures IncreasingBy(Ties(s, key, k), f)
  {
    if s != [] {
      TiesIncreasing(s[1..], key, k, f);
      TiesMembers(s[1..], key, k);
      var rest := Ties(s[1..], key, k);
      forall y | y in rest ensures f(s[0]) < f(y) {
        var j :| 1 <= j < |s| && s[j] == y;
      }
    }
  }

  /** Where an element of key `k` sits among the ties of `r`. */
  lemma TiesAt<T>(r: seq<T>, key: T -> real, k: real, i: nat)
    requires i < |r| && key(r[i]) == k
    ensures Ties(r, key, k) == Ties(r[..i], key, k) + [r[i]] + Ties(r[i + 1..], key, k)
  {
    var rest := r[i..];
    assert r == r[..i] + rest;
    TiesAppend(r[..i], rest, key, k);
    assert rest[1..] == r[i + 1..];
  }

  lemma TieOrderAt<T>(r: seq<T>, key: T -> real, k: real, f: T -> int, i: nat, j: nat)
    requires IncreasingBy(Ties(r, key, k), f)
    requires i < j < |r| && key(r[i]) == k && key(r[j]) == k
    ensures f(r[i]) < f(r[j])
  {
    TiesAt(r, key, k, j);
    TiesAt(r[..j], key, k, i);
    assert r[..j][..i] == r[..i];
    assert r[..j][i + 1..] == r[i + 1..j];
    var t := Ties(r, key, k);
    var p := |Ties(r[..i], key, k)|;
    var q := |Ties(r[..j], key, k)|;
    assert p < q < |t|;
    assert t[p] == r[i];
    assert t[q] == r[j];
  }

  /** If every group of equal keys of `r` is the same as in `s`, and `f` increases along `s`,
      then `f` increases along every pair of equal-key elements of `r`: a stable order. */
  lemma StableTieOrder<T>(s: seq<T>, r: seq<T>, key: T -> real, f: T -> int)
    requires IncreasingBy(s, f)
    requires forall k :: Ties(r, key, k) == Ties(s, key, k)
    ensures forall i, j :: 0 <= i < j < |r| && key(r[i]) == key(r[j]) ==> f(r[i]) < f(r[j])
  {
    forall i, j | 0 <= i < j < |r| && key(r[i]) == key(r[j])
      ensures f(r[i]) < f(r[j])
    {
      var k := key(r[i]);
      TiesIncreasing(s, key, k, f);
      assert Ties(r, key, k) == Ties(s, key, k);
      TieOrderAt(r, key, k, f, i, j);
    }
  }

  /** One step of insertion sort: `x` goes before the first element whose key is not larger,
      so it precedes every element of `s` with the same key. */
  function InsertDesc<T>(x: T, s: seq<T>, key: T -> real): seq<T>
  {
    if s == [] then [x]
    else if key(s[0]) <= key(x) then [x] + s
    else [s[0]] + InsertDesc(x, s[1..], key)
  }

  lemma {:induction false} InsertDescMultiset<T>(x: T, s: seq<T>, key: T -> real)
    ensures multiset(InsertDesc(x, s, key)) == multiset(s) + multiset{x}
  {
    if s != [] && key(s[0]) > key(x) {
      assert s == [s[0]] + s[1..];
      InsertDescMultiset(x, s[1..], key);
    }
  }

  lemma {:induction false} InsertDescSorted<T>(x: T, s: seq<T>, key: T -> real)
    requires SortedDesc(s, key)
    ensures SortedDesc(InsertDesc(x, s, key), key)
  {
    if s != [] && key(s[0]) > key(x) {
      var t := s[1..];
      InsertDescSorted(x, t, key);
      var rest := InsertDesc(x, t, key);
      assert rest[0] == x || rest[0] == t[0];
      assert key(s[0]) >= key(rest[0]);
      forall j | 0 <= j < |rest| ensures key(s[0]) >= key(rest[j]) {
        assert key(rest[0]) >= key(rest[j]) || j == 0;
      }
      var r := [s[0]] + rest;
      assert InsertDesc(x, s, key) == r;
      forall i, j | 0 <= i < j < |r| ensures key(r[i]) >= key(r[j]) {
        assert r[j] == rest[j - 1];
        assert i == 0 || r[i] == rest[i - 1];
      }
    }
  }

  /** Inserting `x` adds it to its group of ties, ahead of the group: every element it is
      placed after has a strictly larger key. */
  lemma {:induction false} InsertDescTies<T>(x: T, s: seq<T>, key: T -> real, k: real)
    ensures Ties(InsertDesc(x, s, key), key, k) == (if key(x) == k then [x] else []) + Ties(s, key, k)
  {
    var hx: seq<T> := if key(x) == k then [x] else [];
    if s == [] {
      assert Ties([x], key, k) == hx + Ties([], key, k);
    } else if key(s[0]) <= key(x) {
      assert InsertDesc(x, s, key) == [x] + s;
      assert ([x] + s)[0] == x;
      assert ([x] + s)[1..] == s;
      assert Ties([x] + s, key, k) == hx + Ties(s, key, k);
    } else {
      var hs: seq<T> := if key(s[0]) == k then [s[0]] else [];
      var tail := Ties(s[1..], key, k);
      var rest := InsertDesc(x, s[1..], key);
      InsertDescTies(x, s[1..], key, k);
      assert InsertDesc(x, s, key) == [s[0]] + rest;
      assert ([s[0]] + rest)[0] == s[0];
      assert ([s[0]] + rest)[1..] == rest;
      assert Ties([s[0]] + rest, key, k) == hs + Ties(rest, key, k);
      assert Ties(s, key, k) == hs + tail;
      if key(x) == k {
        assert hs == [];
        assert Ties(rest, key, k) == [x] + tail;
      } else {
        assert hx == [];
        assert Ties(rest, key, k) == tail;
      }
    }
  }

  /** Python's `sorted(s, key=key, reverse=True)`: a stable sort on descending keys. */
  function SortDesc<T>(s: seq<T>, key: T -> real): (r: seq<T>)
    ensures multiset(r) == multiset(s)
    ensures SortedDesc(r, key)
  {
    if s == [] then []
    else
      assert s == [s[0]] + s[1..];
      var rest := SortDesc(s[1..], key);
      InsertDescMultiset(s[0], rest, key);
      InsertDescSorted(s[0], rest, key);
      InsertDesc(s[0], rest, key)
  }

  /** The sort is stable: each group of equal keys keeps its order in `s`. */
  lemma {:induction false} SortDescStable<T>(s: seq<T>, key: T -> real, k: real)
    ensures Ties(SortDesc(s, key), key, k) == Ties(s, key, k)
  {
    if s != [] {
      SortDescStable(s[1..], key, k);
      InsertDescTies(s[0], SortDesc(s[1..], key), key, k);
    }
  }

  /** The sort keeps the length and the elements. */
  lemma SortDescElements<T>(s: seq<T>, key: T -> real)
    ensures |SortDesc(s, key)| == |s|
    ensures forall y :: y in SortDesc(s, key) <==> y in s
  {
    var r := SortDesc(s, key);
    assert |r| == |multiset(r)| == |multiset(s)| == |s|;
    forall y ensures y in r <==> y in s {
      assert y in r <==> y in multiset(r);
      assert y in s <==> y in multiset(s);
    }
  }

  /** The sort keeps the elements, and with `f` increasing along `s`, equal keys keep `f` order. */
  lemma SortDescFacts<T>(s: seq<T>, key: T -> real, f: T -> int)
    requires IncreasingBy(s, f)
    ensures var r := SortDesc(s, key);
      && |r| == |s|
      && (forall y :: y in r <==> y in s)
      && (forall i, j :: 0 <= i < j < |r| && key(r[i]) == key(r[j]) ==> f(r[i]) < f(r[j]))
  {
    var r := SortDesc(s, key);
    SortDescElements(s, key);
    forall k ensures Ties(r, key, k) == Ties(s, key, k) {
      SortDescStable(s, key, k);
    }
    StableTieOrder(s, r, key, f);
  }

  /** The position of the first `x` in `s`, or `|s|` when there is none. */
  function IndexOf<T(==)>(s: seq<T>, x: T): (n: nat)
    ensures n <= |s|
    ensures n < |s| ==> s[n] == x
  {
    if s == [] then 0 else if s[0] == x then 0 else 1 + IndexOf(s[1..], x)
  }

  /** `x` occurs among the first `k` elements exactly when its first position is below `k`. */
  lemma {:induction false} IndexOfBelow<T>(s: seq<T>, x: T, k: nat)
    requires k <= |s|
    ensures x in s[..k] <==> IndexOf(s, x) < k
  {
    if s != [] && k > 0 {
      if s[0] != x {
        IndexOfBelow(s[1..], x, k - 1);
        assert s[..k] == [s[0]] + s[1..][..k - 1];
      }
    }
  }

  /** An element that does not occur earlier stands at its first position. */
  lemma IndexOfFirst<T>(s: seq<T>, i: nat)
    requires i < |s| && s[i] !in s[..i]
    ensures IndexOf(s, s[i]) == i
  {
    IndexOfBelow(s, s[i], i);
    IndexOfBelow(s, s[i], i + 1);
    assert s[..i + 1][i] == s[i];
  }

  /** Python's slice `s[:n]` for a non-negative `n`. */
  function Take<T>(s: seq<T>, n: nat): (r: seq<T>)
    ensures |r| == if n < |s| then n else |s|
    ensures r == s[..|r|]
  {
    if n < |s| then s[..n] else s
  }

  /** The keys of a dictionary given by its items. */
  function KeysOf<K, V>(d: seq<(K, V)>): set<K>
  {
    set j | 0 <= j < |d| :: d[j].0
  }

  /** Python's `d[k] = v`: an existing key keeps its place and takes the new value,
      a new key goes last. */
  function Put<K(==), V>(d: seq<(K, V)>, k: K, v: V): seq<(K, V)>
  {
    if d == [] then [(k, v)]
    else if d[0].0 == k then [(k, v)] + d[1..]
    else [d[0]] + Put(d[1..], k, v)
  }

  lemma {:induction false} PutNew<K, V>(d: seq<(K, V)>, k: K, v: V)
    requires k !in KeysOf(d)
    ensures Put(d, k, v) == d + [(k, v)]
  {
    if d != [] {
      assert d[0].0 in KeysOf(d);
      assert KeysOf(d[1..]) <= KeysOf(d) by {
        forall j | 0 <= j < |d[1..]| ensures d[1..][j].0 in KeysOf(d) {
          assert d[1..][j] == d[j + 1];
        }
      }
      PutNew(d[1..], k, v);
      assert d == [d[0]] + d[1..];
    }
  }

  lemma {:induction false} PutSame<K, V>(d: seq<(K, V)>, k: K, v: V)
    requires k in KeysOf(d)
    requires forall j :: 0 <= j < |d| && d[j].0 == k ==> d[j].1 == v
    ensures Put(d, k, v) == d
  {
    if d[0].0 == k {
      assert d == [(k, v)] + d[1..];
    } else {
      var j :| 0 <= j < |d| && d[j].0 == k;
      assert d[1..][j - 1] == d[j];
      assert k in KeysOf(d[1..]);
      PutSame(d[1..], k, v);
      assert d == [d[0]] + d[1..];
    }
  }

  /** Assigning a key that is present replaces the value of its item, at its place; every
      other item stays as it was. */
  lemma {:induction false} PutReplaces<K, V>(d: seq<(K, V)>, k: K, v: V, j: nat)
    requires j < |d| && d[j].0 == k
    requires forall i :: 0 <= i < j ==> d[i].0 != k
    ensures Put(d, k, v) == d[j := (k, v)]
  {
    if j > 0 {
      forall i | 0 <= i < j - 1 ensures d[1..][i].0 != k {
        assert d[1..][i] == d[i + 1];
      }
      PutReplaces(d[1..], k, v, j - 1);
      assert [d[0]] + d[1..][j - 1 := (k, v)] == d[j := (k, v)];
    }
  }
}
