/** Sequence operations that mirror the Python list operations the source
    uses: `list.remove`, filtering, and turning a list into a set and back. */
module SeqUtil {

  datatype Option<T> = None | Some(value: T)

  predicate NoDup<T(==)>(s: seq<T>) {
    forall i, j :: 0 <= i < j < |s| ==> s[i] != s[j]
  }

  /** The position of the first occurrence of x in s (`s.index(x)`). */
  function IndexOf<T(==)>(s: seq<T>, x: T): (k: nat)
    requires x in s
    ensures k < |s| && s[k] == x && x !in s[..k]
  {
    if s[0] == x then 0
    else
      var k := IndexOf(s[1..], x);
      assert s[..k + 1] == [s[0]] + s[1..][..k];
      k + 1
  }

  /** Python's `s.remove(x)`: drop the first occurrence of x. */
  function RemoveFirst<T(==)>(s: seq<T>, x: T): (r: seq<T>)
    requires x in s
    ensures |r| == |s| - 1
    ensures r == s[..IndexOf(s, x)] + s[IndexOf(s, x) + 1..]
  {
    var k := IndexOf(s, x);
    s[..k] + s[k + 1..]
  }

  /** In a duplicate-free list, `s.remove(x)` leaves no x behind and no
      element that was not there. */
  lemma RemoveFirstDrops<T>(s: seq<T>, x: T)
    requires NoDup(s) && x in s
    ensures x !in RemoveFirst(s, x)
    ensures forall y :: y in RemoveFirst(s, x) ==> y in s
  {
    var k := IndexOf(s, x);
    forall j | 0 <= j < |RemoveFirst(s, x)|
      ensures RemoveFirst(s, x)[j] != x
    {
      if j < k {
        assert RemoveFirst(s, x)[j] == s[j];
      } else {
        assert RemoveFirst(s, x)[j] == s[j + 1];
      }
    }
  }

  /** The elements of s that are not in X, in their original order. */
  function Without<T(==)>(s: seq<T>, X: set<T>): (r: seq<T>)
    ensures forall x :: x in r ==> x in s && x !in X
    ensures forall x :: x in s && x !in X ==> x in r
    ensures |r| <= |s|
  {
    if s == [] then []
    else if s[0] in X then Without(s[1..], X)
    else [s[0]] + Without(s[1..], X)
  }

  lemma {:induction false} WithoutConcat<T>(a: seq<T>, b: seq<T>, X: set<T>)
    ensures Without(a + b, X) == Without(a, X) + Without(b, X)
  {
    if a == [] {
      assert a + b == b;
    } else {
      assert (a + b)[0] == a[0];
      assert (a + b)[1..] == a[1..] + b;
      WithoutConcat(a[1..], b, X);
    }
  }

  lemma {:induction false} WithoutTwice<T>(s: seq<T>, X: set<T>, Y: set<T>)
    ensures Without(Without(s, X), Y) == Without(s, X + Y)
  {
    if s != [] {
      WithoutTwice(s[1..], X, Y);
    }
  }

  lemma WithoutNothing<T>(s: seq<T>, X: set<T>)
    requires forall x :: x in s ==> x !in X
    ensures Without(s, X) == s
  {
    if s != [] {
      WithoutNothing(s[1..], X);
    }
  }

  /** Removing one occurrence of x does not change the list with every x removed. */
  lemma RemoveFirstWithout<T>(s: seq<T>, x: T)
    requires x in s
    ensures Without(RemoveFirst(s, x), {x}) == Without(s, {x})
  {
    var k := IndexOf(s, x);
    assert s == s[..k] + ([s[k]] + s[k + 1..]);
    WithoutConcat(s[..k], s[k + 1..], {x});
    WithoutConcat(s[..k], [s[k]] + s[k + 1..], {x});
    assert Without([s[k]] + s[k + 1..], {x}) == Without(s[k + 1..], {x});
  }

  /** `list(set(s))`: the distinct elements of s. Python gives no order;
      this definition keeps the last occurrence of each element. */
  function Dedup<T(==)>(s: seq<T>): (r: seq<T>)
    ensures NoDup(r)
    ensures forall x :: x in r ==> x in s
    ensures forall x :: x in s ==> x in r
    ensures |r| <= |s|
  {
    if s == [] then []
    else if s[0] in s[1..] then Dedup(s[1..])
    else [s[0]] + Dedup(s[1..])
  }

  /** The keys of a dictionary given as its entries in iteration order. */
  function Keys<K, V>(d: seq<(K, V)>): (ks: seq<K>)
    ensures |ks| == |d| && forall i :: 0 <= i < |d| ==> ks[i] == d[i].0
  {
    seq(|d|, i requires 0 <= i < |d| => d[i].0)
  }

  /** No key occurs in two entries. */
  predicate UniqueKeys<K(==), V>(d: seq<(K, V)>) {
    forall i, j :: 0 <= i < j < |d| ==> d[i].0 != d[j].0
  }

  /** `d[k] = v`: an existing key keeps its position and gets the new
      value; a new key is appended at the end. */
  function Put<K(==), V>(d: seq<(K, V)>, k: K, v: V): (r: seq<(K, V)>)
    ensures (forall i :: 0 <= i < |d| ==> d[i].0 != k) ==> r == d + [(k, v)]
    ensures forall i :: 0 <= i < |d| && d[i].0 == k && UniqueKeys(d) ==> r == d[i := (k, v)]
  {
    if d == [] then [(k, v)]
    else if d[0].0 == k then [(k, v)] + d[1..]
    else [d[0]] + Put(d[1..], k, v)
  }

  /** Put keeps keys unique, stores (k, v), and keeps every entry with
      another key. */
  lemma PutSpec<K, V>(d: seq<(K, V)>, k: K, v: V)
    requires UniqueKeys(d)
    ensures UniqueKeys(Put(d, k, v))
    ensures (k, v) in Put(d, k, v)
    ensures forall e :: e in Put(d, k, v) ==> e == (k, v) || (e in d && e.0 != k)
    ensures forall e :: e in d && e.0 != k ==> e in Put(d, k, v)
  {
    if exists i :: 0 <= i < |d| && d[i].0 == k {
      var i :| 0 <= i < |d| && d[i].0 == k;
      assert Put(d, k, v) == d[i := (k, v)];
      forall e | e in d && e.0 != k
        ensures e in Put(d, k, v)
      {
        var j :| 0 <= j < |d| && d[j] == e;
        assert Put(d, k, v)[j] == e;
      }
    }
  }

  /** The keys after Put are the old keys and the new one. */
  lemma KeysPut<K, V>(d: seq<(K, V)>, k: K, v: V)
    requires UniqueKeys(d)
    ensures forall x :: x in Keys(Put(d, k, v)) <==> x in Keys(d) || x == k
  {
    if exists i :: 0 <= i < |d| && d[i].0 == k {
      var i :| 0 <= i < |d| && d[i].0 == k;
      assert Put(d, k, v) == d[i := (k, v)];
      assert Keys(Put(d, k, v)) == Keys(d);
    } else {
      assert Keys(Put(d, k, v)) == Keys(d) + [k];
    }
  }

}
